/** The string operations the assembler applies to its source text: cutting
    off a `;` comment, stripping whitespace, ASCII case mapping, splitting a
    line into tokens at commas and whitespace, and splitting a text into
    lines. Strings are sequences of Unicode code points. */
module Text {

  /** The characters the runtime's `isspace` test (and so `strip()` and the
      `\s` class of the tokeniser) counts as whitespace. */
  predicate IsSpace(c: char) {
    c == ' ' || '\t' <= c <= '\r' || '\U{1C}' <= c <= '\U{1F}'
    || c == '\U{85}' || c == '\U{A0}' || c == '\U{1680}'
    || '\U{2000}' <= c <= '\U{200A}' || c == '\U{2028}' || c == '\U{2029}'
    || c == '\U{202F}' || c == '\U{205F}' || c == '\U{3000}'
  }

  /** The characters at which `splitlines()` ends a line. */
  predicate IsLineBreak(c: char) {
    '\n' <= c <= '\r' || '\U{1C}' <= c <= '\U{1E}'
    || c == '\U{85}' || c == '\U{2028}' || c == '\U{2029}'
  }

  /** The tokeniser's separators: a comma or whitespace. */
  predicate IsSeparator(c: char) {
    c == ',' || IsSpace(c)
  }

  /** What `s.split(";")[0]` keeps: the text before the first `;`. */
  function BeforeComment(s: string): (r: string)
    ensures r <= s
    ensures ';' !in r
    ensures |r| < |s| ==> s[|r|] == ';'
  {
    if s == [] || s[0] == ';' then [] else [s[0]] + BeforeComment(s[1..])
  }

  /** `s.strip()`: whitespace removed at both ends, and only there. */
  function Strip(s: string): (r: string)
    ensures |r| <= |s|
    ensures r == [] || (!IsSpace(r[0]) && !IsSpace(r[|r| - 1]))
    ensures s == [] || (!IsSpace(s[0]) && !IsSpace(s[|s| - 1])) ==> r == s
    decreases |s|
  {
    if s != [] && IsSpace(s[0]) then Strip(s[1..])
    else if s != [] && IsSpace(s[|s| - 1]) then Strip(s[..|s| - 1])
    else s
  }

  /** A string of whitespace strips to nothing. */
  lemma {:induction false} StripAllSpace(s: string)
    requires forall k :: 0 <= k < |s| ==> IsSpace(s[k])
    ensures Strip(s) == []
    decreases |s|
  {
    if s != [] {
      assert IsSpace(s[0]);
      StripAllSpace(s[1..]);
    }
  }

  /** `strip()` removes exactly the surrounding whitespace: a text made of
      a run of whitespace, a middle part that neither starts nor ends with
      whitespace, and another run of whitespace strips to the middle part.
      Every text splits this way, so this determines `Strip` on all inputs. */
  lemma {:induction false} StripPadded(a: string, w: string, b: string)
    requires forall k :: 0 <= k < |a| ==> IsSpace(a[k])
    requires forall k :: 0 <= k < |b| ==> IsSpace(b[k])
    requires w == [] || (!IsSpace(w[0]) && !IsSpace(w[|w| - 1]))
    ensures Strip(a + w + b) == w
    decreases |a| + |b|
  {
    var s := a + w + b;
    if a != [] {
      assert s[0] == a[0];
      assert s[1..] == a[1..] + w + b;
      StripPadded(a[1..], w, b);
    } else if w == [] {
      assert s == b;
      StripAllSpace(b);
    } else if b != [] {
      assert s[0] == w[0] && s[|s| - 1] == b[|b| - 1];
      assert s[..|s| - 1] == a + w + b[..|b| - 1];
      StripPadded(a, w, b[..|b| - 1]);
    } else {
      assert s == w;
    }
  }

  /** `c.upper()` for ASCII letters; every other character is unchanged. */
  function UpperChar(c: char): char {
    if 'a' <= c <= 'z' then (c as int - 32) as char else c
  }

  /** `c.lower()` for ASCII letters; every other character is unchanged. */
  function LowerChar(c: char): char {
    if 'A' <= c <= 'Z' then (c as int + 32) as char else c
  }

  /** `s.upper()`, character by character. */
  function Upper(s: string): string {
    seq(|s|, i requires 0 <= i < |s| => UpperChar(s[i]))
  }

  /** A string without lower-case ASCII letters is its own upper case. */
  lemma UpperOfUpper(s: string)
    requires forall k :: 0 <= k < |s| ==> !('a' <= s[k] <= 'z')
    ensures Upper(s) == s
  {
  }

  /** Upper case is case-insensitive: it ignores the case a letter had. */
  lemma UpperIgnoresCase(s: string, t: string)
    requires |s| == |t|
    requires forall k :: 0 <= k < |s| ==> LowerChar(s[k]) == LowerChar(t[k])
    ensures Upper(s) == Upper(t)
  {
    forall k | 0 <= k < |s| ensures UpperChar(s[k]) == UpperChar(t[k]) {
      assert LowerChar(s[k]) == LowerChar(t[k]);
    }
  }

  /** The number of leading characters that are not separators. */
  function WordLength(s: string): (n: nat)
    ensures n <= |s|
    ensures n < |s| ==> IsSeparator(s[n])
  {
    if s == [] || IsSeparator(s[0]) then 0 else 1 + WordLength(s[1..])
  }

  /** The leading word holds no separator. */
  lemma {:induction false} WordLengthWord(s: string)
    ensures forall k :: 0 <= k < WordLength(s) ==> !IsSeparator(s[k])
    decreases |s|
  {
    if s != [] && !IsSeparator(s[0]) {
      WordLengthWord(s[1..]);
      assert forall k :: 1 <= k < WordLength(s) ==> s[k] == s[1..][k - 1];
    }
  }

  /** A token: non-empty and free of separators. */
  predicate IsWord(w: string) {
    w != [] && forall k :: 0 <= k < |w| ==> !IsSeparator(w[k])
  }

  /** `[p for p in re.split(r"[,\s]+", s) if p]`: the maximal runs of
      non-separator characters, in order. */
  function Tokens(s: string): seq<string>
    decreases |s|
  {
    if s == [] then []
    else if IsSeparator(s[0]) then Tokens(s[1..])
    else
      var n := WordLength(s);
      [s[..n]] + Tokens(s[n..])
  }

  /** Every token is a word. */
  lemma {:induction false} TokensAreWords(s: string)
    ensures forall i :: 0 <= i < |Tokens(s)| ==> IsWord(Tokens(s)[i])
    decreases |s|
  {
    if s != [] {
      if IsSeparator(s[0]) {
        TokensAreWords(s[1..]);
      } else {
        var n := WordLength(s);
        WordLengthWord(s);
        TokensAreWords(s[n..]);
        assert IsWord(s[..n]);
      }
    }
  }

  /** A token is unchanged by `strip()`. */
  lemma StripWord(w: string)
    requires IsWord(w)
    ensures Strip(w) == w
  {
    assert !IsSeparator(w[0]) && !IsSeparator(w[|w| - 1]);
  }

  /** Separators in front of a text add no tokens. */
  lemma {:induction false} TokensAfterSeparators(sep: string, rest: string)
    requires forall k :: 0 <= k < |sep| ==> IsSeparator(sep[k])
    ensures Tokens(sep + rest) == Tokens(rest)
    decreases |sep|
  {
    if sep != [] {
      var s := sep + rest;
      assert s[0] == sep[0] && IsSeparator(s[0]);
      assert s[1..] == sep[1..] + rest;
      TokensAfterSeparators(sep[1..], rest);
    } else {
      assert sep + rest == rest;
    }
  }

  /** A word followed by a separator (or by nothing) is read back as one
      token. */
  lemma TokensAfterWord(w: string, rest: string)
    requires IsWord(w)
    requires rest == [] || IsSeparator(rest[0])
    ensures Tokens(w + rest) == [w] + Tokens(rest)
  {
    var s := w + rest;
    assert !IsSeparator(s[0]);
    WordLengthOf(w, rest);
    assert s[..|w|] == w && s[|w|..] == rest;
  }

  lemma {:induction false} WordLengthOf(w: string, rest: string)
    requires forall k :: 0 <= k < |w| ==> !IsSeparator(w[k])
    requires rest == [] || IsSeparator(rest[0])
    ensures WordLength(w + rest) == |w|
    decreases |w|
  {
    if w != [] {
      assert (w + rest)[1..] == w[1..] + rest;
      WordLengthOf(w[1..], rest);
    }
  }

  /** Round trip: words written out with one separator after each are
      tokenised back into the same words. */
  lemma {:induction false} TokensOfSeparatedWords(ws: seq<string>, sep: char)
    requires forall i :: 0 <= i < |ws| ==> IsWord(ws[i])
    requires IsSeparator(sep)
    ensures Tokens(Interleave(ws, sep)) == ws
    decreases |ws|
  {
    if ws != [] {
      var rest := [sep] + Interleave(ws[1..], sep);
      assert Interleave(ws, sep) == ws[0] + rest;
      TokensAfterWord(ws[0], rest);
      TokensAfterSeparators([sep], Interleave(ws[1..], sep));
      TokensOfSeparatedWords(ws[1..], sep);
    }
  }

  /** Each string followed by `sep`. */
  function Interleave(ws: seq<string>, sep: char): string
    decreases |ws|
  {
    if ws == [] then [] else ws[0] + [sep] + Interleave(ws[1..], sep)
  }

  /** Index of the first line break in `s`, or `|s|` if there is none. */
  function LineEnd(s: string): (i: nat)
    ensures i <= |s|
    ensures i < |s| ==> IsLineBreak(s[i])
  {
    if s == [] || IsLineBreak(s[0]) then 0 else 1 + LineEnd(s[1..])
  }

  /** `s.splitlines()`: the lines of `s` without their terminators; `\r\n`
      ends one line, and a final terminator does not start a new line. */
  function SplitLines(s: string): seq<string>
    decreases |s|
  {
    if s == [] then []
    else
      var i := LineEnd(s);
      if i == |s| then [s]
      else
        var skip := if s[i] == '\r' && i + 1 < |s| && s[i + 1] == '\n' then 2 else 1;
        [s[..i]] + SplitLines(s[i + skip..])
  }

  /** `"\n".join(ls)`. */
  function JoinLines(ls: seq<string>): string
    decreases |ls|
  {
    if ls == [] then []
    else if |ls| == 1 then ls[0]
    else ls[0] + "\n" + JoinLines(ls[1..])
  }

  predicate NoLineBreak(s: string) {
    forall k :: 0 <= k < |s| ==> !IsLineBreak(s[k])
  }

  /** A line followed by `\n` is split off as one line. */
  lemma SplitLinesCons(line: string, rest: string)
    requires NoLineBreak(line)
    ensures SplitLines(line + "\n" + rest) == [line] + SplitLines(rest)
  {
    var s := line + "\n" + rest;
    assert s == line + ("\n" + rest);
    LineEndOf(line, "\n" + rest);
    var i := LineEnd(s);
    assert i == |line| && s[i] == '\n';
    assert s[..i] == line;
    assert s[i + 1..] == rest;
    assert SplitLines(s) == [s[..i]] + SplitLines(s[i + 1..]);
  }

  lemma {:induction false} LineEndOf(line: string, rest: string)
    requires NoLineBreak(line)
    requires rest == [] || IsLineBreak(rest[0])
    ensures LineEnd(line + rest) == |line|
    decreases |line|
  {
    if line != [] {
      assert (line + rest)[1..] == line[1..] + rest;
      LineEndOf(line[1..], rest);
    }
  }

  /** Round trip: joining lines with `\n` and splitting the text again gives
      the same lines, provided no line holds a line break and the last line
      is not empty (`splitlines` drops a trailing empty line). */
  lemma {:induction false} SplitJoinLines(ls: seq<string>)
    requires ls != [] && ls[|ls| - 1] != []
    requires forall i :: 0 <= i < |ls| ==> NoLineBreak(ls[i])
    ensures SplitLines(JoinLines(ls)) == ls
    decreases |ls|
  {
    if |ls| == 1 {
      assert ls[0] + [] == ls[0];
      LineEndOf(ls[0], []);
      assert SplitLines(ls[0]) == [ls[0]];
    } else {
      var tail := ls[1..];
      assert tail[|tail| - 1] == ls[|ls| - 1];
      assert forall i :: 0 <= i < |tail| ==> NoLineBreak(tail[i]) by {
        forall i | 0 <= i < |tail| ensures NoLineBreak(tail[i]) {
          assert tail[i] == ls[i + 1];
        }
      }
      assert JoinLines(ls) == ls[0] + "\n" + JoinLines(tail);
      assert NoLineBreak(ls[0]);
      SplitLinesCons(ls[0], JoinLines(tail));
      SplitJoinLines(tail);
    }
  }
}
