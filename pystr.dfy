/** The Python string operations the image extractor relies on:
    `s.split(sep)`, `s.split()`, `s.strip()`, `s.strip(chars)` and the
    substring test `t in s`. */
module PyStr {
  import opened Queries

  /** `c.isspace()`: the characters that separate the words of
      `str.split()` and that `str.strip()` removes. */
  predicate IsSpace(c: char) {
    || '\t' <= c <= '\r' || '\U{1C}' <= c <= ' ' || c == '\U{85}' || c == '\U{A0}' || c == '\U{1680}'
    || '\U{2000}' <= c <= '\U{200A}' || c == '\U{2028}' || c == '\U{2029}' || c == '\U{202F}'
    || c == '\U{205F}' || c == '\U{3000}'
  }

  /** The characters a strip removes: the ones given, or whitespace when
      none are given. */
  datatype Strippable = AnyOf(chars: set<char>) | Spaces

  predicate Strips(c: char, cs: Strippable) {
    match cs
    case AnyOf(chars) => c in chars
    case Spaces => IsSpace(c)
  }

  // ---- s.split(sep) ----

  /** `s.split(sep)` for a one-character separator: the pieces between
      separators, empty ones included. */
  function SplitOn(s: string, sep: char): (r: seq<string>)
    ensures |r| >= 1
    ensures forall i :: 0 <= i < |r| ==> sep !in r[i]
    decreases |s|
  {
    if sep in s then
      var k := IndexOf(s, sep);
      [s[..k]] + SplitOn(s[k + 1..], sep)
    else [s]
  }

  /** `sep.join(parts)` */
  function JoinWith(parts: seq<string>, sep: char): string
    requires |parts| >= 1
  {
    if |parts| == 1 then parts[0] else parts[0] + [sep] + JoinWith(parts[1..], sep)
  }

  /** Joining the pieces with the separator gives the string back. */
  lemma {:induction false} JoinSplitOn(s: string, sep: char)
    ensures JoinWith(SplitOn(s, sep), sep) == s
    decreases |s|
  {
    if sep in s {
      var k := IndexOf(s, sep);
      var rest := s[k + 1..];
      JoinSplitOn(rest, sep);
      var pieces := SplitOn(rest, sep);
      assert SplitOn(s, sep) == [s[..k]] + pieces;
      JoinCons(s[..k], pieces, sep);
      assert s == s[..k] + [sep] + rest;
    }
  }

  /** Joining a piece in front of at least one more puts one separator
      after it. */
  lemma JoinCons(p: string, parts: seq<string>, sep: char)
    requires |parts| >= 1
    ensures JoinWith([p] + parts, sep) == p + [sep] + JoinWith(parts, sep)
  {
    assert ([p] + parts)[1..] == parts;
  }

  /** The first separator of `p + [sep] + t` is the one after `p`, when
      `p` holds none. */
  lemma {:induction false} FirstSeparator(p: string, sep: char, t: string)
    requires sep !in p
    ensures sep in p + [sep] + t && IndexOf(p + [sep] + t, sep) == |p|
  {
    var s := p + [sep] + t;
    assert s[|p|] == sep;
    if |p| > 0 {
      assert s[1..] == p[1..] + [sep] + t;
      FirstSeparator(p[1..], sep, t);
      assert s[0] == p[0];
    }
  }

  /** Splitting pieces that hold no separator, once joined, gives them back. */
  lemma {:induction false} SplitOnJoin(parts: seq<string>, sep: char)
    requires |parts| >= 1
    requires forall i :: 0 <= i < |parts| ==> sep !in parts[i]
    ensures SplitOn(JoinWith(parts, sep), sep) == parts
  {
    if |parts| > 1 {
      var p, rest := parts[0], parts[1..];
      var t := JoinWith(rest, sep);
      assert parts == [p] + rest;
      JoinCons(p, rest, sep);
      var s := p + [sep] + t;
      FirstSeparator(p, sep, t);
      assert s[..|p|] == p;
      assert s[|p| + 1..] == t;
      assert SplitOn(s, sep) == [p] + SplitOn(t, sep);
      SplitOnJoin(rest, sep);
    }
  }

  // ---- s.split() ----

  /** The length of the run of non-whitespace characters `s` starts with. */
  function WordEnd(s: string): (k: nat)
    ensures k <= |s|
    ensures forall i :: 0 <= i < k ==> !IsSpace(s[i])
    ensures k == |s| || IsSpace(s[k])
  {
    if |s| == 0 || IsSpace(s[0]) then 0 else 1 + WordEnd(s[1..])
  }

  /** `s.split()`: the maximal runs of non-whitespace characters. */
  function Words(s: string): (r: seq<string>)
    ensures forall i :: 0 <= i < |r| ==> |r[i]| > 0 && forall j :: 0 <= j < |r[i]| ==> !IsSpace(r[i][j])
    decreases |s|
  {
    if |s| == 0 then []
    else if IsSpace(s[0]) then Words(s[1..])
    else
      var k := WordEnd(s);
      [s[..k]] + Words(s[k..])
  }

  /** `s` cut at every whitespace character: the pieces between them,
      empty ones included. */
  function CutAtSpaces(s: string): (r: seq<string>)
    ensures |r| >= 1
    decreases |s|
  {
    var k := WordEnd(s);
    if k == |s| then [s] else [s[..k]] + CutAtSpaces(s[k + 1..])
  }

  /** The pieces that are not empty, in order. */
  function DropEmpty(pieces: seq<string>): seq<string> {
    if |pieces| == 0 then []
    else (if pieces[0] == "" then [] else [pieces[0]]) + DropEmpty(pieces[1..])
  }

  /** `s.split()` is `s` cut at every whitespace character with the empty
      pieces dropped. */
  lemma {:induction false} WordsAreNonEmptyPieces(s: string)
    ensures Words(s) == DropEmpty(CutAtSpaces(s))
    decreases |s|
  {
    var k := WordEnd(s);
    if |s| == 0 {
    } else if IsSpace(s[0]) {
      var pieces := CutAtSpaces(s[1..]);
      WordsAreNonEmptyPieces(s[1..]);
      assert CutAtSpaces(s) == [""] + pieces;
      assert ([""] + pieces)[1..] == pieces;
    } else if k == |s| {
      assert s[..k] == s && s[k..] == [];
    } else {
      var rest := s[k + 1..];
      var pieces := CutAtSpaces(rest);
      WordsAreNonEmptyPieces(rest);
      assert CutAtSpaces(s) == [s[..k]] + pieces;
      assert ([s[..k]] + pieces)[1..] == pieces;
      assert s[k..][1..] == rest;
      assert Words(s[k..]) == Words(rest);
    }
  }

  /** A word followed by whitespace, or by nothing, ends where the word does. */
  lemma {:induction false} WordEndOfWord(w: string, rest: string)
    requires forall j :: 0 <= j < |w| ==> !IsSpace(w[j])
    requires |rest| == 0 || IsSpace(rest[0])
    ensures WordEnd(w + rest) == |w|
  {
    if |w| > 0 {
      assert (w + rest)[1..] == w[1..] + rest;
      WordEndOfWord(w[1..], rest);
    } else {
      assert w + rest == rest;
    }
  }

  /** Words separated by single spaces split back into the same words. */
  lemma {:induction false} WordsOfJoined(words: seq<string>)
    requires |words| >= 1
    requires forall i :: 0 <= i < |words| ==> |words[i]| > 0 && forall j :: 0 <= j < |words[i]| ==> !IsSpace(words[i][j])
    ensures Words(JoinWith(words, ' ')) == words
  {
    var w := words[0];
    if |words| == 1 {
      WordEndOfWord(w, []);
      assert w + [] == w;
      assert w[|w|..] == [];
    } else {
      var tail := JoinWith(words[1..], ' ');
      var s := JoinWith(words, ' ');
      assert s == w + ([' '] + tail);
      WordEndOfWord(w, [' '] + tail);
      assert s[..|w|] == w;
      assert s[|w|..] == [' '] + tail;
      assert Words([' '] + tail) == Words(tail) by {
        assert ([' '] + tail)[1..] == tail;
      }
      WordsOfJoined(words[1..]);
    }
  }

  // ---- s.strip(chars) ----

  /** How many characters `s` starts with that the strip removes. */
  function Leading(s: string, cs: Strippable): (k: nat)
    ensures k <= |s|
    ensures forall i :: 0 <= i < k ==> Strips(s[i], cs)
    ensures k == |s| || !Strips(s[k], cs)
  {
    if |s| == 0 || !Strips(s[0], cs) then 0 else 1 + Leading(s[1..], cs)
  }

  /** How many characters `s` ends with that the strip removes. */
  function Trailing(s: string, cs: Strippable): (k: nat)
    ensures k <= |s|
    ensures forall i :: |s| - k <= i < |s| ==> Strips(s[i], cs)
    ensures k == |s| || !Strips(s[|s| - 1 - k], cs)
  {
    if |s| == 0 || !Strips(s[|s| - 1], cs) then 0 else 1 + Trailing(s[..|s| - 1], cs)
  }

  /** `s.lstrip(chars)` */
  function LStrip(s: string, cs: Strippable): (r: string)
    ensures |r| <= |s| && r == s[|s| - |r|..]
    ensures forall i :: 0 <= i < |s| - |r| ==> Strips(s[i], cs)
    ensures |r| > 0 ==> !Strips(r[0], cs)
  {
    s[Leading(s, cs)..]
  }

  /** `s.rstrip(chars)` */
  function RStrip(s: string, cs: Strippable): (r: string)
    ensures |r| <= |s| && r == s[..|r|]
    ensures forall i :: |r| <= i < |s| ==> Strips(s[i], cs)
    ensures |r| > 0 ==> !Strips(r[|r| - 1], cs)
  {
    s[..|s| - Trailing(s, cs)]
  }

  /** `s.strip(chars)` */
  function StripChars(s: string, cs: Strippable): (r: string)
    ensures |r| <= |s|
    ensures |r| > 0 ==> !Strips(r[0], cs) && !Strips(r[|r| - 1], cs)
  {
    RStrip(LStrip(s, cs), cs)
  }

  /** What a strip leaves is a run of `s`, starting where `lstrip` stops. */
  lemma StripCharsIsInfix(s: string, cs: Strippable)
    ensures |s| - |LStrip(s, cs)| + |StripChars(s, cs)| <= |s|
    ensures StripChars(s, cs) == s[|s| - |LStrip(s, cs)|..|s| - |LStrip(s, cs)| + |StripChars(s, cs)|]
  {
    var l := LStrip(s, cs);
    var lead := |s| - |l|;
    assert StripChars(s, cs) == s[lead..][..|StripChars(s, cs)|];
  }

  /** What a strip removes, before and after that run, are stripped
      characters only. */
  lemma StripCharsRemovesOnlyStripped(s: string, cs: Strippable)
    ensures forall i :: 0 <= i < |s| - |LStrip(s, cs)| ==> Strips(s[i], cs)
    ensures forall i :: |s| - |LStrip(s, cs)| + |StripChars(s, cs)| <= i < |s| ==> Strips(s[i], cs)
  {
    var l := LStrip(s, cs);
    var r := RStrip(l, cs);
    var lead := |s| - |l|;
    forall i | lead + |r| <= i < |s| ensures Strips(s[i], cs) {
      assert s[i] == l[i - lead];
    }
  }

  /** Stripping twice strips nothing more. */
  lemma StripCharsIdempotent(s: string, cs: Strippable)
    ensures StripChars(StripChars(s, cs), cs) == StripChars(s, cs)
  {
    var r := StripChars(s, cs);
    if |r| > 0 {
      assert Leading(r, cs) == 0;
      assert r[0..] == r;
      assert Trailing(r, cs) == 0;
      assert r[..|r|] == r;
    }
  }

  /** `s.strip()` */
  function Strip(s: string): (r: string)
    ensures |r| > 0 ==> !IsSpace(r[0]) && !IsSpace(r[|r| - 1])
    ensures |r| <= |s|
  {
    StripChars(s, Spaces)
  }

  // ---- t in s ----

  /** `t in s` for strings: `t` occurs in `s` at some position. */
  predicate Contains(s: string, t: string) {
    exists i :: 0 <= i <= |s| && t <= s[i..]
  }
}
