/** The handful of Python `str` operations that transcription/main.py relies
    on, written out on `string` (a sequence of Unicode code points):
    `strip()`, `split(sep)`, `sep.join(parts)`, `startswith`, the `in`
    substring test, `replace(pat, '')`, `isdigit()` and `isalnum()`. */
module Text {

  /** The code points `str.isspace()` accepts, as ten ranges from low to
      high: ASCII tab to carriage return; the four ASCII separators
      0x1C-0x1F and space; NEL; no-break space; ogham space mark; en quad to
      hair space; line and paragraph separator; narrow no-break space;
      medium mathematical space; ideographic space. 29 code points in all. */
  function SpaceRange(k: nat): (r: (char, char))
    requires k < 10
    ensures r.0 <= r.1
  {
    match k
    case 0 => ('\t', '\r')
    case 1 => ('\U{1C}', ' ')
    case 2 => ('\U{85}', '\U{85}')
    case 3 => ('\U{A0}', '\U{A0}')
    case 4 => ('\U{1680}', '\U{1680}')
    case 5 => ('\U{2000}', '\U{200A}')
    case 6 => ('\U{2028}', '\U{2029}')
    case 7 => ('\U{202F}', '\U{202F}')
    case 8 => ('\U{205F}', '\U{205F}')
    case _ => ('\U{3000}', '\U{3000}')
  }

  /** `c` lies in one of the ranges from the `k`-th on. */
  predicate InSpaceRanges(c: char, k: nat)
    decreases 10 - k
  {
    k < 10 && (SpaceRange(k).0 <= c <= SpaceRange(k).1 || InSpaceRanges(c, k + 1))
  }

  /** `str.isspace()` of one code point. */
  predicate IsSpace(c: char) {
    InSpaceRanges(c, 0)
  }

  predicate AllSpace(s: string) {
    forall k {:trigger IsSpace(s[k])} :: 0 <= k < |s| ==> IsSpace(s[k])
  }

  /** What `strip()` leaves: nothing, or a string that neither starts nor
      ends with whitespace. */
  predicate Trimmed(s: string) {
    s == [] || (!IsSpace(s[0]) && !IsSpace(s[|s| - 1]))
  }

  /** How many whitespace characters `lstrip()` removes: the length of
      the longest all-whitespace prefix. */
  function LeadingSpace(s: string): (n: nat)
    ensures n <= |s| && AllSpace(s[..n])
    ensures n < |s| ==> !IsSpace(s[n])
    decreases |s|
  {
    if s != [] && IsSpace(s[0]) then
      var n := 1 + LeadingSpace(s[1..]);
      assert s[..n] == [s[0]] + s[1..][..n - 1];
      n
    else
      0
  }

  /** How many whitespace characters `rstrip()` removes: the length of
      the longest all-whitespace suffix. */
  function TrailingSpace(s: string): (n: nat)
    ensures n <= |s| && AllSpace(s[|s| - n..])
    ensures n < |s| ==> !IsSpace(s[|s| - n - 1])
    decreases |s|
  {
    if s != [] && IsSpace(s[|s| - 1]) then
      var m := TrailingSpace(s[..|s| - 1]);
      SpaceSuffixGrows(s, m);
      1 + m
    else
      0
  }

  /** A whitespace suffix of `s` minus its last character, followed by a
      whitespace last character, is a whitespace suffix one longer. */
  lemma SpaceSuffixGrows(s: string, m: nat)
    requires s != [] && IsSpace(s[|s| - 1]) && m <= |s| - 1
    requires AllSpace(s[..|s| - 1][|s| - 1 - m..])
    requires m < |s| - 1 ==> !IsSpace(s[..|s| - 1][|s| - 1 - m - 1])
    ensures AllSpace(s[|s| - (m + 1)..])
    ensures m + 1 < |s| ==> !IsSpace(s[|s| - (m + 1) - 1])
  {
    var t := s[|s| - (m + 1)..];
    var u := s[..|s| - 1][|s| - 1 - m..];
    forall k | 0 <= k < |t| ensures IsSpace(t[k]) {
      if k < m {
        assert t[k] == u[k];
      }
    }
    if m + 1 < |s| {
      assert s[|s| - (m + 1) - 1] == s[..|s| - 1][|s| - 1 - m - 1];
    }
  }

  /** `lstrip()`. */
  function StripLeft(s: string): string {
    s[LeadingSpace(s)..]
  }

  /** `rstrip()`. */
  function StripRight(s: string): string {
    s[..|s| - TrailingSpace(s)]
  }

  /** `strip()`: `s` with leading and trailing whitespace removed. */
  function Strip(s: string): (r: string)
    ensures Trimmed(r)
    ensures |r| <= |s|
  {
    StripRight(StripLeft(s))
  }

  /** `strip()` only removes characters: whatever it leaves was in `s`. */
  lemma StripKeeps(s: string, c: char)
    ensures c in Strip(s) ==> c in s
  {
    var left := StripLeft(s);
    if c in Strip(s) {
      var k :| 0 <= k < |Strip(s)| && Strip(s)[k] == c;
      assert left[k] == c;
      assert s[LeadingSpace(s) + k] == c;
    }
  }

  /** Leading whitespace up to the first non-space character is what
      `lstrip()` removes. */
  lemma {:induction false} StripLeftAt(s: string, i: nat)
    requires i < |s| && AllSpace(s[..i]) && !IsSpace(s[i])
    ensures LeadingSpace(s) == i
    decreases i
  {
    if i > 0 {
      assert s[..i][0] == s[0];
      assert s[1..][..i - 1] == s[1..i];
      assert forall k :: 0 <= k < i - 1 ==> s[1..i][k] == s[..i][k + 1];
      StripLeftAt(s[1..], i - 1);
    }
  }

  /** Trailing whitespace after the last non-space character is what
      `rstrip()` removes. */
  lemma {:induction false} StripRightAt(s: string, j: nat)
    requires 0 < j <= |s| && AllSpace(s[j..]) && !IsSpace(s[j - 1])
    ensures TrailingSpace(s) == |s| - j
    decreases |s| - j
  {
    if j < |s| {
      assert s[j..][|s| - 1 - j] == s[|s| - 1];
      var t := s[..|s| - 1];
      assert t[j..] == s[j..|s| - 1];
      assert forall k :: 0 <= k < |t| - j ==> t[j..][k] == s[j..][k];
      StripRightAt(t, j);
    }
  }

  /** A string of whitespace only strips to nothing. */
  lemma {:induction false} StripLeftAllSpace(s: string)
    requires AllSpace(s)
    ensures LeadingSpace(s) == |s|
    decreases |s|
  {
    if s != [] {
      StripLeftAllSpace(s[1..]);
    }
  }

  lemma AllSpaceConcat(a: string, b: string)
    requires AllSpace(a) && AllSpace(b)
    ensures AllSpace(a + b)
  {
    forall k | 0 <= k < |a + b| ensures IsSpace((a + b)[k]) {
      if k >= |a| { assert (a + b)[k] == b[k - |a|]; }
    }
  }

  /** The characterisation of `Strip` pins its result down: any infix of `s`
      that is trimmed and surrounded by whitespace only IS `Strip(s)`. */
  lemma StripUnique(s: string, i: nat, j: nat)
    requires i <= j <= |s|
    requires AllSpace(s[..i]) && AllSpace(s[j..]) && Trimmed(s[i..j])
    ensures Strip(s) == s[i..j]
  {
    if i == j {
      assert s == s[..i] + s[j..];
      AllSpaceConcat(s[..i], s[j..]);
      StripLeftAllSpace(s);
      assert s[i..j] == [] == StripRight([]);
    } else {
      assert s[i..j][0] == s[i];
      StripLeftAt(s, i);
      var left := s[i..];
      assert left[j - i..] == s[j..];
      assert left[j - i - 1] == s[i..j][j - i - 1];
      StripRightAt(left, j - i);
      assert left[..j - i] == s[i..j];
      assert Strip(s) == StripRight(left);
    }
  }

  /** `strip()` leaves nothing exactly when the string is all whitespace. */
  lemma StripEmpty(s: string)
    ensures Strip(s) == [] <==> AllSpace(s)
  {
    if AllSpace(s) {
      StripLeftAllSpace(s);
    }
    if Strip(s) == [] {
      StrippedAway(s);
    }
  }

  /** When nothing is left, everything was whitespace. */
  lemma StrippedAway(s: string)
    requires Strip(s) == []
    ensures AllSpace(s)
  {
    var i := LeadingSpace(s);
    var left := s[i..];
    assert TrailingSpace(left) == |left|;
    assert left[|left| - |left|..] == left;
    assert s == s[..i] + left;
    AllSpaceConcat(s[..i], left);
  }

  /** `strip()` is idempotent. */
  lemma StripIdempotent(s: string)
    ensures Strip(Strip(s)) == Strip(s)
  {
    var t := Strip(s);
    assert t[..0] == [] && t[|t|..] == [] && t[0..|t|] == t;
    StripUnique(t, 0, |t|);
  }

  /** `s.split(sep)` with an explicit separator: the pieces between the
      separators, keeping empty pieces; `"".split(sep) == [""]`. */
  function Split(s: string, sep: char): (r: seq<string>)
    ensures |r| >= 1
    ensures forall k :: 0 <= k < |r| ==> sep !in r[k]
    decreases |s|
  {
    if s == [] then [[]]
    else
      var rest := Split(s[1..], sep);
      if s[0] == sep then [[]] + rest
      else [[s[0]] + rest[0]] + rest[1..]
  }

  /** `sep.join(parts)`. */
  function Join(parts: seq<string>, sep: string): string
  {
    if |parts| == 0 then []
    else if |parts| == 1 then parts[0]
    else parts[0] + sep + Join(parts[1..], sep)
  }

  /** Joining the pieces of a split with the separator gives back the text. */
  lemma {:induction false} JoinSplit(s: string, sep: char)
    ensures Join(Split(s, sep), [sep]) == s
    decreases |s|
  {
    if s != [] {
      var rest := Split(s[1..], sep);
      JoinSplit(s[1..], sep);
      if s[0] == sep {
        assert Split(s, sep) == [[]] + rest;
        assert s == [sep] + s[1..];
      } else {
        assert Split(s, sep) == [[s[0]] + rest[0]] + rest[1..];
        if |rest| == 1 {
          assert s == [s[0]] + s[1..];
        } else {
          assert Join(rest, [sep]) == rest[0] + [sep] + Join(rest[1..], [sep]);
          assert s == [s[0]] + s[1..];
        }
      }
    }
  }

  /** A piece without the separator splits to itself. */
  lemma {:induction false} SplitNoSep(p: string, sep: char)
    requires sep !in p
    ensures Split(p, sep) == [p]
    decreases |p|
  {
    if p != [] {
      SplitNoSep(p[1..], sep);
      assert p == [p[0]] + p[1..];
    }
  }

  /** Splitting after a separator-free piece and a separator peels that
      piece off. */
  lemma {:induction false} SplitCons(p: string, sep: char, rest: string)
    requires sep !in p
    ensures Split(p + [sep] + rest, sep) == [p] + Split(rest, sep)
    decreases |p|
  {
    var s := p + [sep] + rest;
    if p == [] {
      assert s[1..] == rest;
    } else {
      assert s[1..] == p[1..] + [sep] + rest;
      SplitCons(p[1..], sep, rest);
      assert p == [p[0]] + p[1..];
    }
  }

  /** Conversely, splitting a join of separator-free pieces gives the
      pieces back, so `Split` and `Join` are inverse. */
  lemma {:induction false} SplitJoin(parts: seq<string>, sep: char)
    requires |parts| >= 1
    requires forall k :: 0 <= k < |parts| ==> sep !in parts[k]
    ensures Split(Join(parts, [sep]), sep) == parts
    decreases |parts|
  {
    if |parts| == 1 {
      SplitNoSep(parts[0], sep);
    } else {
      SplitJoin(parts[1..], sep);
      SplitCons(parts[0], sep, Join(parts[1..], [sep]));
      assert parts == [parts[0]] + parts[1..];
    }
  }

  /** Python's `pat in s` for strings. */
  predicate Contains(s: string, pat: string)
    decreases |s|
  {
    pat <= s || (s != [] && Contains(s[1..], pat))
  }

  /** An occurrence of `pat` brings its first character into `s`. */
  lemma {:induction false} ContainsFirstChar(s: string, pat: string)
    requires pat != []
    ensures Contains(s, pat) ==> pat[0] in s
    decreases |s|
  {
    if s != [] && !(pat <= s) {
      ContainsFirstChar(s[1..], pat);
    }
  }

  predicate OccursAt(s: string, pat: string, i: int) {
    0 <= i <= |s| - |pat| && s[i..i + |pat|] == pat
  }

  /** `Contains` holds exactly when `pat` occurs at some index of `s`. */
  lemma {:induction false} ContainsAt(s: string, pat: string)
    ensures Contains(s, pat) <==> exists i :: OccursAt(s, pat, i)
    decreases |s|
  {
    if pat <= s {
      assert OccursAt(s, pat, 0);
    } else if s != [] {
      ContainsAt(s[1..], pat);
      if exists i :: OccursAt(s, pat, i) {
        var i :| OccursAt(s, pat, i);
        assert i != 0;
        assert s[1..][i - 1..i - 1 + |pat|] == s[i..i + |pat|];
        assert OccursAt(s[1..], pat, i - 1);
      }
      if Contains(s[1..], pat) {
        var i :| OccursAt(s[1..], pat, i);
        assert s[1..][i..i + |pat|] == s[i + 1..i + 1 + |pat|];
        assert OccursAt(s, pat, i + 1);
      }
    }
  }

  /** `s.replace(pat, '')`: a left-to-right scan that drops every
      non-overlapping occurrence of `pat`; what the removal exposes is not
      scanned again. */
  function RemoveAll(s: string, pat: string): (r: string)
    requires pat != []
    ensures |r| <= |s|
    decreases |s|
  {
    if s == [] then []
    else if pat <= s then
      var r := RemoveAll(s[|pat|..], pat);
      assert s == s[..|pat|] + s[|pat|..];
      r
    else
      var r := RemoveAll(s[1..], pat);
      assert s == [s[0]] + s[1..];
      [s[0]] + r
  }

  /** `replace` leaves a string untouched exactly when the pattern does not
      occur in it. */
  lemma {:induction false} RemoveAllUnchanged(s: string, pat: string)
    requires pat != []
    ensures RemoveAll(s, pat) == s <==> !Contains(s, pat)
    decreases |s|
  {
    if s != [] && !(pat <= s) {
      RemoveAllUnchanged(s[1..], pat);
      assert s == [s[0]] + s[1..];
      if RemoveAll(s, pat) == s {
        assert RemoveAll(s[1..], pat) == s[1..];
      }
    }
  }

  /** A prefix without the pattern's first character passes through
      `replace` untouched. */
  lemma {:induction false} RemoveAllSkip(p: string, s: string, pat: string)
    requires pat != [] && pat[0] !in p
    ensures RemoveAll(p + s, pat) == p + RemoveAll(s, pat)
    decreases |p|
  {
    if p != [] {
      RemoveAllSkip(p[1..], s, pat);
      var ps := p + s;
      assert ps[1..] == p[1..] + s;
      assert p[0] in p && ps[0] == p[0];
      assert !(pat <= ps);
      calc {
        RemoveAll(ps, pat);
        [ps[0]] + RemoveAll(ps[1..], pat);
        [p[0]] + (p[1..] + RemoveAll(s, pat));
        { assert p == [p[0]] + p[1..]; }
        p + RemoveAll(s, pat);
      }
    } else {
      assert p + s == s;
    }
  }

  /** An occurrence at the front is dropped and the scan resumes after it. */
  lemma RemoveAllFront(s: string, pat: string)
    requires pat != []
    ensures RemoveAll(pat + s, pat) == RemoveAll(s, pat)
  {
    assert pat <= pat + s;
    assert (pat + s)[|pat|..] == s;
  }

  /** `replace` never brings in a character the string did not have. */
  lemma {:induction false} RemoveAllKeeps(s: string, pat: string)
    requires pat != []
    ensures forall x :: x in RemoveAll(s, pat) ==> x in s
    decreases |s|
  {
    if s != [] {
      if pat <= s {
        RemoveAllKeeps(s[|pat|..], pat);
        forall x | x in RemoveAll(s, pat) ensures x in s {
          assert x in s[|pat|..];
        }
      } else {
        RemoveAllKeeps(s[1..], pat);
        forall x | x in RemoveAll(s, pat) ensures x in s {
          if x != s[0] { assert x in s[1..]; }
        }
      }
    }
  }

  /** Removing a one-character pattern drops exactly that character. */
  lemma {:induction false} RemoveCharMembers(s: string, c: char)
    ensures forall x :: x in RemoveAll(s, [c]) <==> x in s && x != c
    decreases |s|
  {
    if s != [] {
      RemoveCharMembers(s[1..], c);
      assert s == [s[0]] + s[1..];
      if s[0] == c {
        assert [c] <= s;
      } else {
        assert !([c] <= s);
      }
    }
  }

  predicate IsAsciiDigit(c: char) { '0' <= c <= '9' }

  predicate IsAsciiAlnum(c: char) { IsAsciiDigit(c) || 'a' <= c <= 'z' || 'A' <= c <= 'Z' }

  /** `str.isdigit()`, restricted to ASCII digits: non-empty, digits only. */
  predicate IsDigits(s: string) {
    s != [] && forall k :: 0 <= k < |s| ==> IsAsciiDigit(s[k])
  }

  /** `str.isalnum()`, restricted to ASCII letters and digits. */
  predicate IsAlnum(s: string) {
    s != [] && forall k :: 0 <= k < |s| ==> IsAsciiAlnum(s[k])
  }
}
