/** The module-level helpers of the nroff writer: neutralising a line whose
    first character nroff would read as the start of a request, and marking
    URLs so that nroff does not hyphenate them. */
module Escape {
  import opened Wrappers
  import opened Text

  /** The two characters that make nroff treat a line as a request: the
      control character `.` and the no-break control character `'`. */
  const LinestartMeta: seq<char> := ['\'', '.']

  predicate StartsWithMeta(line: string) {
    |line| > 0 && line[0] in LinestartMeta
  }

  /** `nroff_escape_linestart`: a line starting with `'` gets a backslash in
      front, one starting with `.` gets the zero-width `\&`; for every other
      line the Python function falls off its end and returns `None`. */
  function NroffEscapeLinestart(line: string): (r: Option<string>)
    ensures r.Some? <==> StartsWithMeta(line)
    ensures StartsWith(line, "'") ==> r == Some("\\" + line)
    ensures StartsWith(line, ".") ==> r == Some("\\&" + line)
    ensures r.Some? ==> StartsWith(r.value, "\\") && !StartsWithMeta(r.value) && EndsWith(r.value, line)
  {
    if |line| > 0 && line[0] == '\'' then Some("\\" + line)
    else if |line| > 0 && line[0] == '.' then Some("\\&" + line)
    else None
  }

  /** What `write_line` (and the escape loop of `write_text`) makes of a
      line: escaped when it begins with a control character, else unchanged.
      The Python code reads `line[0]`, so the line must not be empty. */
  function EscapeLine(line: string): (r: string)
    requires line != []
    ensures !StartsWithMeta(r)
    ensures r == line <==> !StartsWithMeta(line)
  {
    if line[0] in LinestartMeta then NroffEscapeLinestart(line).value else line
  }

  /** Escaping only ever puts at most two characters in front of the line:
      the text itself survives as a suffix. */
  lemma EscapeLineKeepsLine(line: string)
    requires line != []
    ensures EndsWith(EscapeLine(line), line) && |EscapeLine(line)| <= |line| + 2
  {
    if line[0] in LinestartMeta {
      assert StartsWithMeta(line);
    }
  }

  /** Escaping a line a second time changes nothing: an escaped line no
      longer starts with a control character. */
  lemma EscapeLineIdempotent(line: string)
    requires line != []
    ensures EscapeLine(EscapeLine(line)) == EscapeLine(line)
  {
  }

  predicate NoEmptyLines(lines: seq<string>) {
    forall i :: 0 <= i < |lines| ==> lines[i] != []
  }

  /** Every line of `lines` passed through `EscapeLine`, in order. */
  function EscapeAll(lines: seq<string>): (r: seq<string>)
    requires NoEmptyLines(lines)
    ensures |r| == |lines|
  {
    if lines == [] then [] else
      assert NoEmptyLines(lines[1..]) by {
        forall i | 0 <= i < |lines| - 1 ensures lines[1..][i] != [] {
          assert lines[1..][i] == lines[i + 1];
        }
      }
      [EscapeLine(lines[0])] + EscapeAll(lines[1..])
  }

  /** The escaped block holds the escape of each line, in order. */
  lemma {:induction false} EscapeAllAt(lines: seq<string>, k: int)
    requires NoEmptyLines(lines) && 0 <= k < |lines|
    ensures EscapeAll(lines)[k] == EscapeLine(lines[k])
  {
    if k > 0 {
      assert NoEmptyLines(lines[1..]) by {
        forall i | 0 <= i < |lines| - 1 ensures lines[1..][i] != [] {
          assert lines[1..][i] == lines[i + 1];
        }
      }
      EscapeAllAt(lines[1..], k - 1);
    }
  }

  /** A block whose lines are, one for one, the escapes of the input lines
      is the escaped block. */
  lemma EscapeAllPointwise(lines: seq<string>, r: seq<string>)
    requires NoEmptyLines(lines) && |r| == |lines|
    requires forall k :: 0 <= k < |r| ==> r[k] == EscapeLine(lines[k])
    ensures r == EscapeAll(lines)
  {
    forall k | 0 <= k < |r| ensures r[k] == EscapeAll(lines)[k] {
      EscapeAllAt(lines, k);
    }
  }

  /** No line of an escaped block starts with a control character, and each
      still ends with the line it escapes. */
  lemma EscapeAllNoMeta(lines: seq<string>)
    requires NoEmptyLines(lines)
    ensures forall k :: 0 <= k < |lines| ==> !StartsWithMeta(EscapeAll(lines)[k]) && EndsWith(EscapeAll(lines)[k], lines[k])
  {
    forall k | 0 <= k < |lines| ensures !StartsWithMeta(EscapeAll(lines)[k]) && EndsWith(EscapeAll(lines)[k], lines[k]) {
      EscapeAllAt(lines, k);
      EscapeLineKeepsLine(lines[k]);
    }
  }

  const Http: string := "http://"

  /** The nroff escape `\%`, which forbids hyphenating the word it precedes. */
  const NoHyphen: string := "\\%"

  /** An occurrence of `http://` starts at position `k` of `s`. */
  predicate UrlAt(s: string, k: int) {
    0 <= k && k + |Http| <= |s| && s[k..k + |Http|] == Http
  }

  /** The occurrence of `http://` at `k` is preceded by `\%`. */
  predicate MarkedAt(s: string, k: int) {
    2 <= k <= |s| && s[k - 2..k] == NoHyphen
  }

  /** `urlkeep`: `re.sub('http://', '\\%http://', text)`, scanning left to
      right and replacing every occurrence. */
  function UrlKeep(s: string): (r: string)
    ensures |r| >= |s|
    ensures r == [] <==> s == []
  {
    if StartsWith(s, Http) then NoHyphen + Http + UrlKeep(s[|Http|..])
    else if s == [] then []
    else [s[0]] + UrlKeep(s[1..])
  }

  /** The output of `urlkeep` for a text that starts with a URL starts with the marker. */
  lemma UrlKeepStartsWithMarker(s: string)
    requires StartsWith(s, Http)
    ensures StartsWith(UrlKeep(s), NoHyphen) && UrlKeep(s)[0] == '\\'
  {
  }

  /** A prefix of `UrlKeep(s)` free of backslashes was copied from `s`
      unchanged: a marker always begins with a backslash. */
  lemma {:induction false} UrlKeepPlainPrefix(s: string, p: string)
    requires '\\' !in p
    requires StartsWith(UrlKeep(s), p)
    ensures StartsWith(s, p)
  {
    if p != [] {
      if StartsWith(s, Http) {
        UrlKeepStartsWithMarker(s);
        assert false;
      }
      var r := UrlKeep(s[1..]);
      assert UrlKeep(s) == [s[0]] + r;
      assert StartsWith(r, p[1..]) by {
        assert r[..|p| - 1] == UrlKeep(s)[1..|p|];
      }
      UrlKeepPlainPrefix(s[1..], p[1..]);
      assert s[..|p|] == [s[0]] + s[1..][..|p| - 1];
    }
  }

  /** The letter `h` occurs in `http://` only at its start. */
  lemma HttpHasOneH()
    ensures forall i :: 0 < i < |Http| ==> Http[i] != 'h'
  {
  }

  /** A slice lying past the prefix of a concatenation is a slice of the rest. */
  lemma SliceAfterPrefix(pre: string, rest: string, a: int, b: int)
    requires |pre| <= a <= b <= |pre| + |rest|
    ensures (pre + rest)[a..b] == rest[a - |pre|..b - |pre|]
  {
    var r := pre + rest;
    forall j | 0 <= j < b - a ensures r[a..b][j] == rest[a - |pre|..b - |pre|][j] {
      assert r[a + j] == rest[a + j - |pre|];
    }
  }

  /** Prefixing a marked URL keeps every URL of the rest marked. */
  lemma MarkedAfterMarker(rest: string)
    requires forall k :: UrlAt(rest, k) ==> MarkedAt(rest, k)
    ensures forall k :: UrlAt(NoHyphen + Http + rest, k) ==> MarkedAt(NoHyphen + Http + rest, k)
  {
    var pre := NoHyphen + Http;
    var r := pre + rest;
    HttpHasOneH();
    forall k | UrlAt(r, k) ensures MarkedAt(r, k) {
      assert r[k] == 'h';
      if k < |pre| {
        assert k != 0 && k != 1;
        assert r[k] == Http[k - 2];
      } else {
        SliceAfterPrefix(pre, rest, k, k + |Http|);
        assert UrlAt(rest, k - |pre|);
        assert MarkedAt(rest, k - |pre|);
        SliceAfterPrefix(pre, rest, k - 2, k);
      }
    }
  }

  /** Prefixing one copied character keeps every URL of the rest marked,
      provided the character does not itself start an unmarked URL. */
  lemma MarkedAfterChar(c: char, rest: string)
    requires forall k :: UrlAt(rest, k) ==> MarkedAt(rest, k)
    requires !UrlAt([c] + rest, 0)
    ensures forall k :: UrlAt([c] + rest, k) ==> MarkedAt([c] + rest, k)
  {
    var r := [c] + rest;
    forall k | UrlAt(r, k) ensures MarkedAt(r, k) {
      assert k != 0;
      SliceAfterPrefix([c], rest, k, k + |Http|);
      assert UrlAt(rest, k - 1);
      assert MarkedAt(rest, k - 1);
      SliceAfterPrefix([c], rest, k - 2, k);
    }
  }

  /** Every `http://` in the result of `urlkeep` is preceded by `\%`. */
  lemma {:induction false} UrlKeepMarksEveryUrl(s: string)
    ensures forall k :: UrlAt(UrlKeep(s), k) ==> MarkedAt(UrlKeep(s), k)
  {
    if StartsWith(s, Http) {
      UrlKeepMarksEveryUrl(s[|Http|..]);
      MarkedAfterMarker(UrlKeep(s[|Http|..]));
    } else if s != [] {
      var rest := UrlKeep(s[1..]);
      UrlKeepMarksEveryUrl(s[1..]);
      if UrlAt([s[0]] + rest, 0) {
        assert StartsWith(rest, Http[1..]) by {
          assert rest[..|Http| - 1] == ([s[0]] + rest)[1..|Http|];
        }
        UrlKeepPlainPrefix(s[1..], Http[1..]);
        assert false;
      }
      MarkedAfterChar(s[0], rest);
    }
  }

  /** Deletes the `\%` in front of every marked `http://`. */
  function Unmark(r: string): string {
    if StartsWith(r, NoHyphen + Http) then Http + Unmark(r[|NoHyphen + Http|..])
    else if r == [] then []
    else [r[0]] + Unmark(r[1..])
  }

  /** A marker in the output of `urlkeep` only comes from a URL of the input:
      a text that does not start with `http://` does not produce one first. */
  lemma NoMarkerWithoutUrl(s: string)
    requires !StartsWith(s, Http)
    ensures !StartsWith(UrlKeep(s), NoHyphen + Http)
  {
    if s != [] && s[0] == '\\' {
      UrlKeepCopies(s);
      SecondNotPercent(s[1..]);
      if |UrlKeep(s)| >= |NoHyphen + Http| {
        assert UrlKeep(s)[1..|NoHyphen + Http|] == UrlKeep(s[1..])[..|Http| + 1];
      }
    }
  }

  /** On a text that does not start with a URL, `urlkeep` copies the first character. */
  lemma UrlKeepCopies(s: string)
    requires s != [] && !StartsWith(s, Http)
    ensures UrlKeep(s) == [s[0]] + UrlKeep(s[1..])
  {
  }

  /** Helper of `NoMarkerWithoutUrl`: `UrlKeep(s1)` never starts with `%http://`. */
  lemma SecondNotPercent(s1: string)
    ensures !StartsWith(UrlKeep(s1), "%" + Http)
  {
    var u := UrlKeep(s1);
    if StartsWith(u, "%" + Http) {
      assert u[0] == '%';
      if StartsWith(s1, Http) {
        UrlKeepStartsWithMarker(s1);
        assert false;
      }
      var s2 := s1[1..];
      UrlKeepCopies(s1);
      assert UrlKeep(s2)[..|Http|] == u[1..|Http| + 1] == Http;
      UrlKeepPlainPrefix(s2, Http);
      UrlKeepStartsWithMarker(s2);
      assert false;
    }
  }

  /** `urlkeep` only inserts markers: deleting them gives back the text. */
  lemma {:induction false} UrlKeepOnlyInsertsMarkers(s: string)
    ensures Unmark(UrlKeep(s)) == s
  {
    if StartsWith(s, Http) {
      var rest := s[|Http|..];
      assert UrlKeep(s) == NoHyphen + Http + UrlKeep(rest);
      assert UrlKeep(s)[|NoHyphen + Http|..] == UrlKeep(rest);
      UrlKeepOnlyInsertsMarkers(rest);
      assert s == Http + rest;
    } else if s != [] {
      NoMarkerWithoutUrl(s);
      assert UrlKeep(s) == [s[0]] + UrlKeep(s[1..]);
      UrlKeepOnlyInsertsMarkers(s[1..]);
    }
  }
}
