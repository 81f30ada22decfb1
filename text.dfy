/**
  The Python string operations the module relies on: `os.path.basename`,
  `str.strip`, `str.split`, the `in` substring test, and the one shape of
  regular expression it searches for (a literal, one or more whitespace
  characters, another literal).
 */
module Text {

  /** `c.isspace()`; in a `str` pattern, `\s` matches exactly these characters. */
  predicate IsSpace(c: char)
  {
    c == ' ' || ('\t' <= c <= '\r') || ('\U{1c}' <= c <= '\U{1f}')
    || c == '\U{85}' || c == '\U{a0}' || c == '\U{1680}'
    || ('\U{2000}' <= c <= '\U{200a}') || c == '\U{2028}' || c == '\U{2029}'
    || c == '\U{202f}' || c == '\U{205f}' || c == '\U{3000}'
  }

  predicate AllSpace(s: string)
  {
    forall k :: 0 <= k < |s| ==> IsSpace(s[k])
  }

  /** Just past the last '/' among the first `i` characters of `path`, or 0 when there is none. */
  function AfterLastSlash(path: string, i: nat): (e: nat)
    requires i <= |path|
    ensures e <= i
    ensures forall k :: e <= k < i ==> path[k] != '/'
    ensures e > 0 ==> path[e - 1] == '/'
    decreases i
  {
    if i == 0 then 0
    else if path[i - 1] == '/' then i
    else AfterLastSlash(path, i - 1)
  }

  predicate IsBasename(path: string, name: string)
  {
    |name| <= |path| && name == path[|path| - |name|..] && '/' !in name
    && (|name| < |path| ==> path[|path| - |name| - 1] == '/')
  }

  /** `os.path.basename(path)`: what follows the last '/' of `path`. */
  function Basename(path: string): (name: string)
    ensures IsBasename(path, name)
  {
    path[AfterLastSlash(path, |path|)..]
  }

  lemma ConcatAssoc(a: string, b: string, c: string)
    ensures a + (b + c) == (a + b) + c
  {
  }

  /** `part` occurs in `s` starting at index `i`. */
  predicate OccursAt(s: string, part: string, i: nat)
  {
    i + |part| <= |s| && s[i..i + |part|] == part
  }

  lemma OccursInTail(s: string, part: string)
    requires |s| > 0
    ensures forall i: nat :: OccursAt(s[1..], part, i) <==> OccursAt(s, part, i + 1)
  {
    forall i: nat
      ensures OccursAt(s[1..], part, i) <==> OccursAt(s, part, i + 1)
    {
      if i + |part| <= |s| - 1 {
        assert s[1..][i..i + |part|] == s[i + 1..i + 1 + |part|];
      }
    }
  }

  /** Python's `part in s`. */
  function Contains(s: string, part: string): (found: bool)
    ensures found <==> exists i: nat :: OccursAt(s, part, i)
    decreases |s|
  {
    if |s| < |part| then false
    else if s[..|part|] == part then assert OccursAt(s, part, 0); true
    else
      OccursInTail(s, part);
      assert !OccursAt(s, part, 0);
      assert forall i: nat :: OccursAt(s, part, i) ==> i > 0 && OccursAt(s[1..], part, i - 1);
      Contains(s[1..], part)
  }

  /** `s` with the `n` characters from `j` all whitespace, followed by `word`. */
  predicate SpaceRunThen(s: string, j: nat, n: nat, word: string)
  {
    n >= 1 && j + n <= |s| && AllSpace(s[j..j + n]) && OccursAt(s, word, j + n)
  }

  /** `re.search(phrase + r'\s+' + word, s)` matches at index `i` with `n` whitespace characters. */
  predicate PatternAt(s: string, phrase: string, word: string, i: nat, n: nat)
  {
    OccursAt(s, phrase, i) && SpaceRunThen(s, i + |phrase|, n, word)
  }

  lemma SpaceRunStep(s: string, j: nat, next: nat, word: string)
    requires j < |s| && IsSpace(s[j]) && next == j + 1
    ensures (exists n: nat :: SpaceRunThen(s, j, n, word))
        <==> OccursAt(s, word, next) || exists n: nat :: SpaceRunThen(s, next, n, word)
  {
    if exists n: nat :: SpaceRunThen(s, j, n, word) {
      var n: nat :| SpaceRunThen(s, j, n, word);
      if n > 1 {
        assert s[j + 1..j + n] == s[j..j + n][1..];
        assert SpaceRunThen(s, j + 1, n - 1, word);
      }
    }
    if OccursAt(s, word, j + 1) {
      assert SpaceRunThen(s, j, 1, word);
    } else if exists n: nat :: SpaceRunThen(s, next, n, word) {
      var n: nat :| SpaceRunThen(s, next, n, word);
      assert s[j..j + n + 1] == [s[j]] + s[j + 1..j + 1 + n];
      assert SpaceRunThen(s, j, n + 1, word);
    }
  }

  /** One or more whitespace characters from index `j`, then `word` (the regex backtracks over the run). */
  function MatchSpaceRun(s: string, j: nat, word: string): (found: bool)
    ensures found <==> exists n: nat :: SpaceRunThen(s, j, n, word)
    decreases |s| - j
  {
    if j < |s| && IsSpace(s[j]) then
      SpaceRunStep(s, j, j + 1, word);
      OccursAt(s, word, j + 1) || MatchSpaceRun(s, j + 1, word)
    else
      assert forall n: nat :: !SpaceRunThen(s, j, n, word);
      false
  }

  /** The scan `re.search` performs: the first candidate index at or after `i`. */
  function SearchFrom(s: string, phrase: string, word: string, i: nat): (found: bool)
    ensures found <==> exists k: nat, n: nat :: i <= k && PatternAt(s, phrase, word, k, n)
    decreases |s| + 1 - i
  {
    if i > |s| then
      assert forall k: nat, n: nat :: i <= k ==> !PatternAt(s, phrase, word, k, n);
      false
    else if OccursAt(s, phrase, i) && MatchSpaceRun(s, i + |phrase|, word) then
      var n: nat :| SpaceRunThen(s, i + |phrase|, n, word);
      assert PatternAt(s, phrase, word, i, n);
      true
    else
      assert forall n: nat :: !PatternAt(s, phrase, word, i, n);
      SearchFrom(s, phrase, word, i + 1)
  }

  /** `re.search(phrase + r'\s+' + word, s) is not None`, for literal `phrase` and `word`. */
  function SearchPattern(s: string, phrase: string, word: string): (found: bool)
    ensures found <==> exists i: nat, n: nat :: PatternAt(s, phrase, word, i, n)
  {
    SearchFrom(s, phrase, word, 0)
  }

  /** The first index from `i` on that is not whitespace, or |s|. */
  function SkipSpace(s: string, i: nat): (j: nat)
    requires i <= |s|
    ensures i <= j <= |s|
    ensures forall k :: i <= k < j ==> IsSpace(s[k])
    ensures j < |s| ==> !IsSpace(s[j])
    decreases |s| - i
  {
    if i == |s| || !IsSpace(s[i]) then i else SkipSpace(s, i + 1)
  }

  /** Going down from `j` to no lower than `lo`, just past the last character that is not whitespace. */
  function DropSpace(s: string, lo: nat, j: nat): (i: nat)
    requires lo <= j <= |s|
    ensures lo <= i <= j
    ensures forall k :: i <= k < j ==> IsSpace(s[k])
    ensures i > lo ==> !IsSpace(s[i - 1])
    decreases j
  {
    if j == lo || !IsSpace(s[j - 1]) then j else DropSpace(s, lo, j - 1)
  }

  /** `s` is `r` surrounded by whitespace, with `i` whitespace characters before it. */
  predicate StripsTo(s: string, r: string, i: nat)
  {
    i + |r| <= |s| && s[i..i + |r|] == r && AllSpace(s[..i]) && AllSpace(s[i + |r|..])
  }

  /** `r` is `s` without surrounding whitespace: `r` neither starts nor ends with whitespace. */
  ghost predicate IsStripOf(s: string, r: string)
  {
    && (exists i: nat :: StripsTo(s, r, i))
    && (r == [] || (!IsSpace(r[0]) && !IsSpace(r[|r| - 1])))
    && ((s == [] || (!IsSpace(s[0]) && !IsSpace(s[|s| - 1]))) ==> r == s)
  }

  /** Python's `s.strip()`: `s` without its leading and trailing whitespace. */
  function Strip(s: string): (r: string)
    ensures IsStripOf(s, r)
  {
    var i := SkipSpace(s, 0);
    var j := DropSpace(s, i, |s|);
    assert StripsTo(s, s[i..j], i);
    s[i..j]
  }

  /** `"<sep>".join(pieces)`. */
  function Join(pieces: seq<string>, sep: char): string
  {
    if |pieces| == 0 then []
    else if |pieces| == 1 then pieces[0]
    else pieces[0] + [sep] + Join(pieces[1..], sep)
  }

  /** Python's `s.split(sep)` for a one-character separator: never empty, and the pieces join back to `s`. */
  function Split(s: string, sep: char): (pieces: seq<string>)
    ensures |pieces| >= 1
    ensures forall k :: 0 <= k < |pieces| ==> sep !in pieces[k]
    ensures Join(pieces, sep) == s
  {
    if s == [] then [[]]
    else
      var rest := Split(s[1..], sep);
      if s[0] == sep then
        assert Join([[]] + rest, sep) == [sep] + Join(rest, sep) by {
          assert ([[]] + rest)[1..] == rest;
        }
        assert s == [s[0]] + s[1..];
        [[]] + rest
      else
        var pieces := [[s[0]] + rest[0]] + rest[1..];
        assert Join(pieces, sep) == [s[0]] + Join(rest, sep) by {
          if |rest| > 1 {
            assert pieces[1..] == rest[1..];
          }
        }
        assert s == [s[0]] + s[1..];
        pieces
  }

  lemma {:induction false} SplitOfPrefix(p: string, t: string, sep: char)
    requires sep !in p
    ensures Split(p + t, sep) == [p + Split(t, sep)[0]] + Split(t, sep)[1..]
    decreases |p|
  {
    if p != [] {
      assert (p + t)[1..] == p[1..] + t;
      SplitOfPrefix(p[1..], t, sep);
      assert [p[0]] + (p[1..] + Split(t, sep)[0]) == p + Split(t, sep)[0];
    } else {
      assert p + t == t;
      assert p + Split(t, sep)[0] == Split(t, sep)[0];
      assert Split(t, sep) == [Split(t, sep)[0]] + Split(t, sep)[1..];
    }
  }

  /** Splitting a join of separator-free pieces gives the pieces back. */
  lemma {:induction false} SplitJoin(pieces: seq<string>, sep: char)
    requires |pieces| >= 1
    requires forall k :: 0 <= k < |pieces| ==> sep !in pieces[k]
    ensures Split(Join(pieces, sep), sep) == pieces
    decreases |pieces|
  {
    if |pieces| == 1 {
      SplitOfPrefix(pieces[0], [], sep);
      assert pieces[0] + [] == pieces[0];
    } else {
      var rest := Join(pieces[1..], sep);
      SplitJoin(pieces[1..], sep);
      assert Join(pieces, sep) == pieces[0] + ([sep] + rest);
      SplitOfPrefix(pieces[0], [sep] + rest, sep);
      assert ([sep] + rest)[0] == sep;
      assert ([sep] + rest)[1..] == rest;
      assert Split([sep] + rest, sep) == [[]] + pieces[1..];
      assert pieces[0] + [] == pieces[0];
      assert pieces == [pieces[0]] + pieces[1..];
    }
  }
}
