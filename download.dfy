/**
 * The file name offered by the download button of a code block
 * (`CodeBlock.handleDownload` in src/app/page.tsx): the lower-cased block title
 * with every run of whitespace turned into one `-`, a dot, and `sh` for bash
 * snippets or the language name otherwise. Characters are treated as ASCII.
 */
module Download {
  import opened Optional

  /** The component's defaults: `filename = "Terminal"`, `language = "bash"`. */
  const DEFAULT_FILENAME := "Terminal"
  const DEFAULT_LANGUAGE := "bash"

  /** ASCII whitespace as matched by `\s`: space, tab, line feed, vertical tab, form feed, carriage return. */
  predicate IsSpace(c: char) {
    c == ' ' || ('\t' <= c <= '\r')
  }

  predicate IsUpper(c: char) {
    'A' <= c <= 'Z'
  }

  predicate IsLower(c: char) {
    'a' <= c <= 'z'
  }

  predicate NoSpace(s: string) {
    forall i :: 0 <= i < |s| ==> !IsSpace(s[i])
  }

  predicate AllSpace(s: string) {
    forall i :: 0 <= i < |s| ==> IsSpace(s[i])
  }

  predicate NoUpper(s: string) {
    forall i :: 0 <= i < |s| ==> !IsUpper(s[i])
  }

  /** ASCII `toLowerCase` of one character. */
  function LowerChar(c: char): (r: char)
    ensures !IsUpper(r)
    ensures IsUpper(c) ==> IsLower(r) && r as int - 'a' as int == c as int - 'A' as int
    ensures !IsUpper(c) ==> r == c
  {
    if IsUpper(c) then (c as int + 32) as char else c
  }

  /** ASCII upper-casing, the inverse of `LowerChar` on letters. */
  function UpperChar(c: char): (r: char)
    ensures !IsLower(r)
    ensures !IsLower(c) ==> r == c
  {
    if IsLower(c) then (c as int - 32) as char else c
  }

  /** Lower-casing loses nothing on upper-case letters: upper-casing brings them back. */
  lemma LowerCharRoundTrip(c: char)
    requires IsUpper(c)
    ensures UpperChar(LowerChar(c)) == c
  {
  }

  /** ASCII `toLowerCase` of a string. */
  function Lower(s: string): (r: string)
    ensures |r| == |s|
    ensures forall i :: 0 <= i < |s| ==> r[i] == LowerChar(s[i])
    ensures NoUpper(r)
  {
    if s == [] then [] else [LowerChar(s[0])] + Lower(s[1..])
  }

  /** A string with no upper-case letter is its own lower-case form. */
  lemma LowerNoUpper(s: string)
    requires NoUpper(s)
    ensures Lower(s) == s
  {
  }

  /** Lower-casing keeps whitespace where it was. */
  lemma LowerKeepsSpace(s: string)
    ensures forall i :: 0 <= i < |s| ==> (IsSpace(Lower(s)[i]) <==> IsSpace(s[i]))
  {
  }

  /** The length of the whitespace run `s` starts with. */
  function LeadingSpaces(s: string): (n: nat)
    ensures n <= |s|
    ensures forall i :: 0 <= i < n ==> IsSpace(s[i])
    ensures n < |s| ==> !IsSpace(s[n])
  {
    if s != [] && IsSpace(s[0]) then 1 + LeadingSpaces(s[1..]) else 0
  }

  /** `s.replace(/\s+/g, '-')`: each maximal run of whitespace becomes one `-`. */
  function Collapse(s: string): (r: string)
    ensures |r| <= |s|
    ensures r == [] <==> s == []
    decreases |s|
  {
    if s == [] then []
    else if IsSpace(s[0]) then "-" + Collapse(s[LeadingSpaces(s)..])
    else [s[0]] + Collapse(s[1..])
  }

  /** The collapsed text has no whitespace left, and collapsing brings in no upper-case letter. */
  lemma {:induction false} CollapseClean(s: string)
    ensures NoSpace(Collapse(s))
    ensures NoUpper(s) ==> NoUpper(Collapse(s))
    decreases |s|
  {
    if s != [] {
      var rest := if IsSpace(s[0]) then s[LeadingSpaces(s)..] else s[1..];
      var head := if IsSpace(s[0]) then '-' else s[0];
      CollapseClean(rest);
      var r := Collapse(rest);
      assert Collapse(s) == [head] + r;
      assert NoUpper(s) ==> NoUpper(rest) by {
        if NoUpper(s) {
          forall i | 0 <= i < |rest| ensures !IsUpper(rest[i]) {
            assert rest[i] == s[|s| - |rest| + i];
          }
        }
      }
      forall i | 0 < i < |r| + 1 ensures ([head] + r)[i] == r[i - 1] {
      }
    }
  }

  /** Text without whitespace passes through unchanged. */
  lemma {:induction false} CollapseNoSpace(s: string)
    requires NoSpace(s)
    ensures Collapse(s) == s
  {
    if s != [] {
      CollapseNoSpace(s[1..]);
    }
  }

  /**
   * A whitespace run `w` between a whitespace-free prefix `x` and a rest `y`
   * that does not continue the run becomes exactly one `-`: together with
   * `CollapseNoSpace` this determines `Collapse` on every input.
   */
  lemma CollapseRun(x: string, w: string, y: string)
    requires NoSpace(x)
    requires w != [] && AllSpace(w)
    requires y == [] || !IsSpace(y[0])
    ensures Collapse(x + w + y) == x + "-" + Collapse(y)
  {
    assert x + w + y == x + (w + y);
    CollapseAfterWord(x, w + y);
    CollapseLeadingRun(w, y);
  }

  /** A prefix without whitespace is copied as it is, whatever follows it. */
  lemma {:induction false} CollapseAfterWord(x: string, t: string)
    requires NoSpace(x)
    ensures Collapse(x + t) == x + Collapse(t)
  {
    if x != [] {
      assert x + t == [x[0]] + (x[1..] + t);
      CollapseCons(x[0], x[1..] + t);
      CollapseAfterWord(x[1..], t);
      assert [x[0]] + (x[1..] + Collapse(t)) == x + Collapse(t);
    } else {
      assert x + t == t;
    }
  }

  /** A character other than whitespace is copied to the front of the result. */
  lemma CollapseCons(c: char, t: string)
    requires !IsSpace(c)
    ensures Collapse([c] + t) == [c] + Collapse(t)
  {
    assert ([c] + t)[1..] == t;
  }

  /** A leading whitespace run `w` followed by `y`, which does not continue the run, becomes one `-`. */
  lemma CollapseLeadingRun(w: string, y: string)
    requires w != [] && AllSpace(w)
    requires y == [] || !IsSpace(y[0])
    ensures Collapse(w + y) == "-" + Collapse(y)
  {
    var s := w + y;
    assert forall i :: 0 <= i < |w| ==> s[i] == w[i];
    assert y != [] ==> s[|w|] == y[0];
    assert LeadingSpaces(s) == |w|;
    assert s[|w|..] == y;
  }

  /** The name part of the downloaded file. */
  function Stem(filename: string): (r: string)
    ensures NoSpace(r) && NoUpper(r)
    ensures |r| <= |filename|
  {
    CollapseClean(Lower(filename));
    Collapse(Lower(filename))
  }

  /** Deriving the stem of a stem changes nothing. */
  lemma StemIdempotent(filename: string)
    ensures Stem(Stem(filename)) == Stem(filename)
  {
    var r := Stem(filename);
    LowerNoUpper(r);
    CollapseNoSpace(r);
  }

  /** The extension: `sh` for bash, the language itself otherwise. */
  function Extension(language: string): (ext: string)
    ensures language != "bash" ==> ext == language
    ensures '.' in ext ==> '.' in language
  {
    if language == "bash" then "sh" else language
  }

  /** The extension is `sh` exactly when the language is `bash` or `sh` itself. */
  lemma ExtensionSh(language: string)
    ensures Extension(language) == "sh" <==> language == "bash" || language == "sh"
  {
    assert "bash" != "sh" by { assert "bash"[0] != "sh"[0]; }
  }

  /**
   * `element.download` for a code block titled `filename` in `language`. For a
   * language without a dot the name splits back, at its last dot, into exactly
   * the stem and the extension (a dot in the title stays in the stem).
   */
  function DownloadName(filename: string, language: string): (name: string)
    ensures '.' !in language ==> SplitExtension(name) == Some((Stem(filename), Extension(language)))
  {
    var stem, ext := Stem(filename), Extension(language);
    SplitExtensionJoin(stem, ext);
    stem + "." + ext
  }

  /** The position of the last occurrence of `c` in `s`. */
  function LastIndexOf(s: string, c: char): (r: Option<nat>)
    ensures r.Some? ==> r.value < |s| && s[r.value] == c && c !in s[r.value + 1..]
    ensures r.None? ==> c !in s
  {
    if s == [] then None
    else if s[|s| - 1] == c then Some(|s| - 1)
    else
      var r := LastIndexOf(s[..|s| - 1], c);
      assert r.Some? ==> s[r.value + 1..] == s[..|s| - 1][r.value + 1..] + [s[|s| - 1]];
      assert r.None? ==> s == s[..|s| - 1] + [s[|s| - 1]];
      r
  }

  /** Reads a file name back as stem and extension, split at the last dot. */
  function SplitExtension(name: string): (r: Option<(string, string)>)
    ensures r.Some? ==> name == r.value.0 + "." + r.value.1 && '.' !in r.value.1
    ensures r.None? <==> '.' !in name
  {
    match LastIndexOf(name, '.')
    case None => None
    case Some(i) =>
      assert name == name[..i] + "." + name[i + 1..];
      Some((name[..i], name[i + 1..]))
  }

  /** The last `c` of `a + [c] + b` is the one after `a` when `b` has none. */
  lemma {:induction false} LastIndexOfAppend(a: string, c: char, b: string)
    requires c !in b
    ensures LastIndexOf(a + [c] + b, c) == Some(|a|)
  {
    if b != [] {
      var s := a + [c] + b;
      assert s[|s| - 1] == b[|b| - 1];
      assert s[..|s| - 1] == a + [c] + b[..|b| - 1];
      LastIndexOfAppend(a, c, b[..|b| - 1]);
    }
  }

  /** Joining a stem and a dot-free extension with `.` and splitting at the last dot gives both back. */
  lemma SplitExtensionJoin(stem: string, ext: string)
    ensures '.' !in ext ==> SplitExtension(stem + "." + ext) == Some((stem, ext))
  {
    if '.' !in ext {
      LastIndexOfAppend(stem, '.', ext);
      var name := stem + "." + ext;
      assert name == stem + ['.'] + ext;
      assert name[..|stem|] == stem;
      assert name[|stem| + 1..] == ext;
    }
  }

  /** With the component's defaults the file is `terminal.sh`. */
  lemma DefaultDownloadName()
    ensures DownloadName(DEFAULT_FILENAME, DEFAULT_LANGUAGE) == "terminal.sh"
  {
    DefaultStem();
  }

  /** The default title lower-cases to `terminal`, which has no whitespace to collapse. */
  lemma DefaultStem()
    ensures Stem(DEFAULT_FILENAME) == "terminal"
  {
    LowerDefaultFilename();
    NoUpperNoSpace("terminal");
    CollapseNoSpace("terminal");
  }

  /** A string of lower-case letters has no whitespace. */
  lemma NoUpperNoSpace(s: string)
    requires forall i :: 0 <= i < |s| ==> IsLower(s[i])
    ensures NoSpace(s)
  {
  }

  lemma LowerDefaultFilename()
    ensures Lower(DEFAULT_FILENAME) == "terminal"
  {
    assert Lower("erminal") == "erminal" by {
      assert NoUpper("erminal");
      LowerNoUpper("erminal");
    }
    assert DEFAULT_FILENAME[1..] == "erminal";
    assert Lower(DEFAULT_FILENAME) == [LowerChar('T')] + Lower("erminal");
    assert LowerChar('T') == 't';
  }
}
