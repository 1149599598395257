/**
 * The Python string built-ins that the datamap script relies on, written out
 * so that their edge cases are explicit: prefix and suffix tests, `strip` of
 * one character, `split` on a separator, whitespace `split()`, line splitting,
 * `replace`, zero-padded formatting, `os.path.join` on POSIX, and the
 * code-point order that `sorted` uses on strings.
 */
module Text {

  predicate StartsWith(s: string, p: string) {
    |p| <= |s| && s[..|p|] == p
  }

  predicate EndsWith(s: string, p: string) {
    |p| <= |s| && s[|s| - |p|..] == p
  }

  /** Python's `s[n:]` for a non-negative `n`: empty once `n` passes the end. */
  function DropFirst(s: string, n: nat): (r: string)
    ensures n <= |s| ==> r == s[n..]
    ensures n > |s| ==> r == ""
  {
    if n <= |s| then s[n..] else ""
  }

  /** `s.lstrip(c)` for a single character `c`. */
  function TrimLeft(s: string, c: char): (r: string)
    ensures |r| <= |s| && r == s[|s| - |r|..]
    ensures forall i :: 0 <= i < |s| - |r| ==> s[i] == c
    ensures r != "" ==> r[0] != c
    decreases |s|
  {
    if s != "" && s[0] == c then TrimLeft(s[1..], c) else s
  }

  /** `s.rstrip(c)` for a single character `c`. */
  function TrimRight(s: string, c: char): (r: string)
    ensures |r| <= |s| && r == s[..|r|]
    ensures forall i :: |r| <= i < |s| ==> s[i] == c
    ensures r != "" ==> r[|r| - 1] != c
    decreases |s|
  {
    if s != "" && s[|s| - 1] == c then TrimRight(s[..|s| - 1], c) else s
  }

  /**
   * `s.strip(c)`: every leading and every trailing `c` removed. The result
   * is the slice of `s` after its leading run of `c`, followed in `s` only by
   * `c`, and it neither starts nor ends with `c`.
   */
  function Strip(s: string, c: char): (r: string)
    ensures r != "" ==> r[0] != c && r[|r| - 1] != c
    ensures var i := |s| - |TrimLeft(s, c)|;
      && i + |r| <= |s| && s[i..i + |r|] == r
      && (forall k :: 0 <= k < i ==> s[k] == c)
      && (forall k :: i + |r| <= k < |s| ==> s[k] == c)
  {
    var l := TrimLeft(s, c);
    var r := TrimRight(l, c);
    StripOfTrims(s, l, r, c);
    r
  }

  /** What the two trims promise, put together into the shape of `Strip`. */
  lemma StripOfTrims(s: string, l: string, r: string, c: char)
    requires |l| <= |s| && l == s[|s| - |l|..]
    requires (forall i :: 0 <= i < |s| - |l| ==> s[i] == c) && (l != "" ==> l[0] != c)
    requires |r| <= |l| && r == l[..|r|]
    requires (forall i :: |r| <= i < |l| ==> l[i] == c) && (r != "" ==> r[|r| - 1] != c)
    ensures r != "" ==> r[0] != c && r[|r| - 1] != c
    ensures var i := |s| - |l|;
      && i + |r| <= |s| && s[i..i + |r|] == r
      && (forall k :: 0 <= k < i ==> s[k] == c)
      && (forall k :: i + |r| <= k < |s| ==> s[k] == c)
  {
    TrailingOfSuffix(s, l, r, c);
    assert r != "" ==> r[0] == l[0];
  }

  lemma TrailingOfSuffix(s: string, l: string, r: string, c: char)
    requires |l| <= |s| && l == s[|s| - |l|..]
    requires |r| <= |l| && r == l[..|r|]
    requires forall j :: |r| <= j < |l| ==> l[j] == c
    ensures var i := |s| - |l|; s[i..i + |r|] == r && forall k :: i + |r| <= k < |s| ==> s[k] == c
  {
    var i := |s| - |l|;
    forall k | i + |r| <= k < |s| ensures s[k] == c {
      assert s[k] == l[k - i];
    }
  }

  /** The length of the run of `c` that starts `s`. */
  function LeadingRun(s: string, c: char): (n: nat)
    ensures n <= |s|
    ensures forall k :: 0 <= k < n ==> s[k] == c
    ensures n < |s| ==> s[n] != c
    decreases |s|
  {
    if s != "" && s[0] == c then 1 + LeadingRun(s[1..], c) else 0
  }

  lemma {:induction false} LeadingRunOfTrim(s: string, c: char)
    ensures LeadingRun(s, c) == |s| - |TrimLeft(s, c)|
    decreases |s|
  {
    if s != "" && s[0] == c {
      LeadingRunOfTrim(s[1..], c);
    }
  }

  lemma {:induction false} TrimLeftRun(k: nat, y: string, c: char)
    requires y == "" || y[0] != c
    ensures TrimLeft(seq(k, _ => c) + y, c) == y
    decreases k
  {
    if k > 0 {
      assert (seq(k, _ => c) + y)[1..] == seq(k - 1, _ => c) + y;
      TrimLeftRun(k - 1, y, c);
    } else {
      assert seq(k, _ => c) + y == y;
    }
  }

  lemma {:induction false} TrimRightRun(y: string, m: nat, c: char)
    requires y == "" || y[|y| - 1] != c
    ensures TrimRight(y + seq(m, _ => c), c) == y
    decreases m
  {
    if m > 0 {
      var s := y + seq(m, _ => c);
      assert s[..|s| - 1] == y + seq(m - 1, _ => c);
      TrimRightRun(y, m - 1, c);
    } else {
      assert y + seq(m, _ => c) == y;
    }
  }

  /** Stripping a character that surrounds a text free of it at both ends gives the text back. */
  lemma {:induction false} StripSurrounded(x: string, c: char, k: nat, m: nat)
    requires x != "" ==> x[0] != c && x[|x| - 1] != c
    ensures Strip(seq(k, _ => c) + x + seq(m, _ => c), c) == x
  {
    var left := seq(k, _ => c);
    var right := seq(m, _ => c);
    if x == "" {
      assert left + x + right == seq(k + m, _ => c) + "";
      TrimLeftRun(k + m, "", c);
    } else {
      assert left + x + right == left + (x + right);
      TrimLeftRun(k, x + right, c);
      TrimRightRun(x, m, c);
    }
  }

  /**
   * `s.split(sep)` for a one-character separator: the pieces between the
   * separators, so there is always one more piece than separators.
   */
  function Split(s: string, sep: char): (r: seq<string>)
    ensures |r| >= 1
    ensures forall i :: 0 <= i < |r| ==> sep !in r[i]
    ensures Join(r, sep) == s
    decreases |s|
  {
    if s == "" then [""]
    else
      var rest := Split(s[1..], sep);
      if s[0] == sep then [""] + rest
      else [[s[0]] + rest[0]] + rest[1..]
  }

  /** `sep.join(parts)`, the inverse of `Split`. */
  function Join(parts: seq<string>, sep: char): string
    requires |parts| >= 1
    decreases |parts|
  {
    if |parts| == 1 then parts[0] else parts[0] + [sep] + Join(parts[1..], sep)
  }

  lemma {:induction false} SplitWithoutSeparator(s: string, sep: char)
    requires sep !in s
    ensures Split(s, sep) == [s]
    decreases |s|
  {
    if s != "" {
      SplitWithoutSeparator(s[1..], sep);
    }
  }

  lemma {:induction false} SplitAtSeparator(a: string, b: string, sep: char)
    requires sep !in a
    ensures Split(a + [sep] + b, sep) == [a] + Split(b, sep)
    decreases |a|
  {
    var s := a + [sep] + b;
    if a == "" {
      assert s[1..] == b;
    } else {
      assert s[1..] == a[1..] + [sep] + b;
      SplitAtSeparator(a[1..], b, sep);
      assert [a[0]] + a[1..] == a;
    }
  }

  /** Splitting what `Join` produced gives the parts back when no part holds the separator. */
  lemma {:induction false} SplitJoin(parts: seq<string>, sep: char)
    requires |parts| >= 1
    requires forall i :: 0 <= i < |parts| ==> sep !in parts[i]
    ensures Split(Join(parts, sep), sep) == parts
    decreases |parts|
  {
    if |parts| == 1 {
      SplitWithoutSeparator(parts[0], sep);
    } else {
      SplitJoin(parts[1..], sep);
      SplitAtSeparator(parts[0], Join(parts[1..], sep), sep);
      assert [parts[0]] + parts[1..] == parts;
    }
  }

  /** The characters Python's `str.split()` treats as whitespace. */
  predicate IsSpace(c: char) {
    c == ' ' || ('\t' <= c <= '\r') || ('\U{1C}' <= c <= '\U{1F}') || c == '\U{85}' || c == '\U{A0}'
    || c == '\U{1680}' || ('\U{2000}' <= c <= '\U{200A}') || c == '\U{2028}' || c == '\U{2029}'
    || c == '\U{202F}' || c == '\U{205F}' || c == '\U{3000}'
  }

  /** The characters at which `str.splitlines()` ends a line. */
  predicate IsLineBreak(c: char) {
    ('\n' <= c <= '\r') || ('\U{1C}' <= c <= '\U{1E}') || c == '\U{85}' || c == '\U{2028}' || c == '\U{2029}'
  }

  /** The length of the run of non-whitespace characters that starts `s`. */
  function WordLength(s: string): (n: nat)
    ensures n <= |s|
    ensures forall i :: 0 <= i < n ==> !IsSpace(s[i])
    ensures n < |s| ==> IsSpace(s[n])
    decreases |s|
  {
    if s == "" || IsSpace(s[0]) then 0 else 1 + WordLength(s[1..])
  }

  /** `s.split()` with no argument: the maximal runs of non-whitespace characters. */
  function Words(s: string): (r: seq<string>)
    ensures forall i :: 0 <= i < |r| ==> r[i] != "" && forall k :: 0 <= k < |r[i]| ==> !IsSpace(r[i][k])
    decreases |s|
  {
    if s == "" then []
    else if IsSpace(s[0]) then Words(s[1..])
    else
      var n := WordLength(s);
      [s[..n]] + Words(s[n..])
  }

  /** True when `w` is a word `Words` can return: non-empty and free of whitespace. */
  predicate IsWord(w: string) {
    w != "" && forall k :: 0 <= k < |w| ==> !IsSpace(w[k])
  }

  /** `" ".join(words)`; the empty list joins to the empty text. */
  function JoinWords(words: seq<string>): string
    decreases |words|
  {
    if words == [] then "" else if |words| == 1 then words[0] else words[0] + " " + JoinWords(words[1..])
  }

  lemma {:induction false} WordsAfterSpace(s: string)
    requires s != "" && IsSpace(s[0])
    ensures Words(s) == Words(s[1..])
  {
  }

  lemma {:induction false} WordsOfWord(w: string, rest: string)
    requires IsWord(w)
    requires rest == "" || IsSpace(rest[0])
    ensures Words(w + rest) == [w] + Words(rest)
  {
    var s := w + rest;
    WordLengthOfWord(w, rest);
    assert s[..|w|] == w;
    assert s[|w|..] == rest;
  }

  lemma {:induction false} WordLengthOfWord(w: string, rest: string)
    requires forall k :: 0 <= k < |w| ==> !IsSpace(w[k])
    requires rest == "" || IsSpace(rest[0])
    ensures WordLength(w + rest) == |w|
    decreases |w|
  {
    if w != "" {
      assert (w + rest)[1..] == w[1..] + rest;
      WordLengthOfWord(w[1..], rest);
    } else {
      assert w + rest == rest;
    }
  }

  /** Whitespace only, possibly empty. */
  predicate AllSpace(g: string) {
    forall k :: 0 <= k < |g| ==> IsSpace(g[k])
  }

  /** `gaps[0] + words[0] + gaps[1] + … + words[n - 1] + gaps[n]`. */
  function Gapped(words: seq<string>, gaps: seq<string>): string
    requires |gaps| == |words| + 1
    decreases |words|
  {
    if words == [] then gaps[0] else gaps[0] + words[0] + Gapped(words[1..], gaps[1..])
  }

  /** The words are words, the gaps whitespace, and the gaps between two words not empty. */
  predicate Separating(words: seq<string>, gaps: seq<string>)
    requires |gaps| == |words| + 1
  {
    && (forall i :: 0 <= i < |words| ==> IsWord(words[i]))
    && (forall i :: 0 <= i < |gaps| ==> AllSpace(gaps[i]))
    && (forall i :: 0 < i < |words| ==> gaps[i] != "")
  }

  lemma SeparatingTail(words: seq<string>, gaps: seq<string>)
    requires |gaps| == |words| + 1 && words != [] && Separating(words, gaps)
    ensures Separating(words[1..], gaps[1..])
  {
    assert forall i :: 0 <= i < |words| - 1 ==> words[1..][i] == words[i + 1];
    assert forall i :: 0 <= i < |gaps| - 1 ==> gaps[1..][i] == gaps[i + 1];
  }

  lemma SeparatingCons(w: string, g: string, words: seq<string>, gaps: seq<string>)
    requires |gaps| == |words| + 1 && Separating(words, gaps)
    requires IsWord(w) && AllSpace(g) && (words != [] ==> gaps[0] != "")
    ensures Separating([w] + words, [g] + gaps)
  {
    assert forall i :: 0 < i <= |words| ==> ([w] + words)[i] == words[i - 1];
    assert forall i :: 0 < i <= |gaps| ==> ([g] + gaps)[i] == gaps[i - 1];
  }

  /** Leading whitespace contributes no word. */
  lemma {:induction false} WordsAfterSpaces(g: string, s: string)
    requires AllSpace(g)
    ensures Words(g + s) == Words(s)
    decreases |g|
  {
    if g != "" {
      assert (g + s)[0] == g[0];
      WordsAfterSpace(g + s);
      assert (g + s)[1..] == g[1..] + s;
      assert AllSpace(g[1..]) by {
        forall k | 0 <= k < |g[1..]| ensures IsSpace(g[1..][k]) {
          assert g[1..][k] == g[k + 1];
        }
      }
      WordsAfterSpaces(g[1..], s);
    } else {
      assert g + s == s;
    }
  }

  /** A gapped text after a word starts a new word only after whitespace. */
  lemma GappedStart(words: seq<string>, gaps: seq<string>)
    requires |gaps| == |words| + 1 && Separating(words, gaps)
    requires words != [] ==> gaps[0] != ""
    ensures var s := Gapped(words, gaps); s == "" || IsSpace(s[0])
  {
    if words != [] {
      assert Gapped(words, gaps)[0] == gaps[0][0];
    }
  }

  /**
   * Whitespace-split of words separated by any runs of whitespace, with any
   * whitespace before and after, gives exactly those words.
   */
  lemma {:induction false} WordsOfGapped(words: seq<string>, gaps: seq<string>)
    requires |gaps| == |words| + 1 && Separating(words, gaps)
    ensures Words(Gapped(words, gaps)) == words
    decreases |words|
  {
    if words == [] {
      WordsAfterSpaces(gaps[0], "");
      assert gaps[0] + "" == gaps[0];
    } else {
      SeparatingTail(words, gaps);
      WordsOfGapped(words[1..], gaps[1..]);
      var rest := Gapped(words[1..], gaps[1..]);
      assert IsWord(words[0]) && AllSpace(gaps[0]);
      assert words[1..] != [] ==> gaps[1..][0] != "" by {
        if words[1..] != [] {
          assert gaps[1..][0] == gaps[1];
        }
      }
      GappedStart(words[1..], gaps[1..]);
      assert Gapped(words, gaps) == gaps[0] + (words[0] + rest);
      WordsGappedStep(words[0], gaps[0], rest, words[1..]);
      assert [words[0]] + words[1..] == words;
    }
  }

  /** A gap, a word and a text that starts with whitespace split into the word and the text's words. */
  lemma WordsGappedStep(w: string, g: string, rest: string, ws: seq<string>)
    requires IsWord(w) && AllSpace(g) && (rest == "" || IsSpace(rest[0])) && Words(rest) == ws
    ensures Words(g + (w + rest)) == [w] + ws
  {
    WordsOfWord(w, rest);
    WordsAfterSpaces(g, w + rest);
  }

  /** The whitespace runs around and between the words of `s`. */
  function Gaps(s: string): (g: seq<string>)
    ensures |g| == |Words(s)| + 1
    decreases |s|
  {
    if s == "" then [""]
    else if IsSpace(s[0]) then
      var g := Gaps(s[1..]);
      [[s[0]] + g[0]] + g[1..]
    else
      [""] + Gaps(s[WordLength(s)..])
  }

  /** Every text is its words separated by its gaps: the words are its maximal non-whitespace runs. */
  lemma {:induction false} GapsRebuild(s: string)
    ensures Separating(Words(s), Gaps(s)) && Gapped(Words(s), Gaps(s)) == s
    decreases |s|
  {
    if s == "" {
    } else if IsSpace(s[0]) {
      GapsRebuild(s[1..]);
      GapsSpaceStep(s);
    } else {
      GapsRebuild(s[WordLength(s)..]);
      GapsWordStep(s);
    }
  }

  lemma GapsSpaceStep(s: string)
    requires s != "" && IsSpace(s[0])
    requires Separating(Words(s[1..]), Gaps(s[1..])) && Gapped(Words(s[1..]), Gaps(s[1..])) == s[1..]
    ensures Separating(Words(s), Gaps(s)) && Gapped(Words(s), Gaps(s)) == s
  {
    var ws := Words(s[1..]);
    var g := Gaps(s[1..]);
    WordsAfterSpace(s);
    assert Gaps(s) == [[s[0]] + g[0]] + g[1..];
    SeparatingWiden(ws, g, s[0]);
    GappedWiden(ws, g, s[0]);
    assert [s[0]] + s[1..] == s;
  }

  lemma GapsWordStep(s: string)
    requires s != "" && !IsSpace(s[0])
    requires var rest := s[WordLength(s)..];
      Separating(Words(rest), Gaps(rest)) && Gapped(Words(rest), Gaps(rest)) == rest
    ensures Separating(Words(s), Gaps(s)) && Gapped(Words(s), Gaps(s)) == s
  {
    var n := WordLength(s);
    var rest := s[n..];
    WordUnfold(s);
    WordHead(s);
    if Words(rest) != [] {
      assert rest != "";
      GapsStartWithSpace(rest);
    }
    SeparatingCons(s[..n], "", Words(rest), Gaps(rest));
    GappedCons(s[..n], Words(rest), Gaps(rest));
  }

  /** How `Words` and `Gaps` take a leading word off the text. */
  lemma WordUnfold(s: string)
    requires s != "" && !IsSpace(s[0])
    ensures var n := WordLength(s); Words(s) == [s[..n]] + Words(s[n..]) && Gaps(s) == [""] + Gaps(s[n..])
  {
  }

  /** The leading word of a text and what follows it. */
  lemma WordHead(s: string)
    requires s != "" && !IsSpace(s[0])
    ensures var n := WordLength(s); IsWord(s[..n]) && (s[n..] == "" || IsSpace(s[n..][0])) && s[..n] + s[n..] == s
  {
  }

  /** A text that starts with whitespace has a non-empty first gap. */
  lemma GapsStartWithSpace(s: string)
    requires s != "" && IsSpace(s[0])
    ensures Gaps(s)[0] != ""
  {
  }

  /** Widening the first gap by one whitespace character keeps the words separated. */
  lemma SeparatingWiden(words: seq<string>, gaps: seq<string>, c: char)
    requires |gaps| == |words| + 1 && Separating(words, gaps) && IsSpace(c)
    ensures Separating(words, [[c] + gaps[0]] + gaps[1..])
  {
    var wide := [[c] + gaps[0]] + gaps[1..];
    assert forall i :: 0 < i < |gaps| ==> wide[i] == gaps[i];
    assert AllSpace(wide[0]) by {
      forall k | 0 <= k < |wide[0]| ensures IsSpace(wide[0][k]) {
        if k > 0 {
          assert wide[0][k] == gaps[0][k - 1];
        }
      }
    }
  }

  lemma GappedWiden(words: seq<string>, gaps: seq<string>, c: char)
    requires |gaps| == |words| + 1
    ensures Gapped(words, [[c] + gaps[0]] + gaps[1..]) == [c] + Gapped(words, gaps)
  {
    var wide := [[c] + gaps[0]] + gaps[1..];
    assert wide[1..] == gaps[1..];
  }

  lemma GappedCons(w: string, words: seq<string>, gaps: seq<string>)
    requires |gaps| == |words| + 1
    ensures Gapped([w] + words, [""] + gaps) == w + Gapped(words, gaps)
  {
    assert ([w] + words)[1..] == words;
    assert ([""] + gaps)[1..] == gaps;
  }

  /** Splitting words joined by single spaces gives the words back. */
  lemma {:induction false} WordsJoinWords(words: seq<string>)
    requires forall i :: 0 <= i < |words| ==> IsWord(words[i])
    ensures Words(JoinWords(words)) == words
    decreases |words|
  {
    if words == [] {
    } else if |words| == 1 {
      WordsOfWord(words[0], "");
      assert words[0] + "" == words[0];
    } else {
      WordsJoinWords(words[1..]);
      WordsJoinStep(words);
    }
  }

  /** A word and a space in front of the joined rest split off as the first word. */
  lemma WordsJoinStep(words: seq<string>)
    requires |words| > 1 && IsWord(words[0])
    requires Words(JoinWords(words[1..])) == words[1..]
    ensures Words(JoinWords(words)) == words
  {
    assert JoinWords(words) == words[0] + " " + JoinWords(words[1..]);
    WordsSpaceCons(words[0], JoinWords(words[1..]), words[1..]);
    assert [words[0]] + words[1..] == words;
  }

  lemma WordsSpaceCons(w: string, tail: string, ws: seq<string>)
    requires IsWord(w) && Words(tail) == ws
    ensures Words(w + " " + tail) == [w] + ws
  {
    WordsOfWord(w, " " + tail);
    assert w + " " + tail == w + (" " + tail);
    WordsAfterSpace(" " + tail);
    assert (" " + tail)[1..] == tail;
  }

  /** The line-break characters of `s`, in order. */
  function Breaks(s: string): (r: string)
    ensures forall k :: 0 <= k < |r| ==> IsLineBreak(r[k])
    decreases |s|
  {
    if s == "" then "" else (if IsLineBreak(s[0]) then [s[0]] else "") + Breaks(s[1..])
  }

  /** The lines written back one after another, each but the last followed by the break that ended it. */
  function Interleave(lines: seq<string>, breaks: string): string
    requires |lines| == |breaks| + 1
    decreases |breaks|
  {
    if breaks == "" then lines[0] else lines[0] + [breaks[0]] + Interleave(lines[1..], breaks[1..])
  }

  lemma InterleaveCons(c: char, lines: seq<string>, breaks: string)
    requires |lines| == |breaks| + 1
    ensures Interleave([[c] + lines[0]] + lines[1..], breaks) == [c] + Interleave(lines, breaks)
  {
    var grown := [[c] + lines[0]] + lines[1..];
    assert grown[1..] == lines[1..];
  }

  /**
   * The lines of `s`, cut at every line-break character: written back with
   * the breaks between them they give `s`, and no line holds a break.
   * Python's `splitlines()` differs only in the empty lines it reports (it
   * treats "\r\n" as one break, drops a final empty line and gives no line
   * for "").
   */
  function Lines(s: string): (r: seq<string>)
    ensures |r| == |Breaks(s)| + 1
    ensures Interleave(r, Breaks(s)) == s
    ensures forall i :: 0 <= i < |r| ==> forall k :: 0 <= k < |r[i]| ==> !IsLineBreak(r[i][k])
    decreases |s|
  {
    if s == "" then [""]
    else
      var rest := Lines(s[1..]);
      if IsLineBreak(s[0]) then
        assert ([""] + rest)[1..] == rest;
        [""] + rest
      else
        assert Breaks(s) == Breaks(s[1..]);
        InterleaveCons(s[0], rest, Breaks(s[1..]));
        assert [s[0]] + s[1..] == s;
        [[s[0]] + rest[0]] + rest[1..]
  }

  lemma {:induction false} LinesWithoutBreak(s: string)
    requires forall k :: 0 <= k < |s| ==> !IsLineBreak(s[k])
    ensures Lines(s) == [s]
    decreases |s|
  {
    if s != "" {
      LinesWithoutBreak(s[1..]);
      assert [s[0]] + s[1..] == s;
    }
  }

  lemma {:induction false} LinesAtBreak(a: string, b: string)
    requires forall k :: 0 <= k < |a| ==> !IsLineBreak(a[k])
    ensures Lines(a + "\n" + b) == [a] + Lines(b)
    decreases |a|
  {
    var s := a + "\n" + b;
    if a == "" {
      assert s[1..] == b;
    } else {
      assert s[1..] == a[1..] + "\n" + b;
      LinesAtBreak(a[1..], b);
      assert [a[0]] + a[1..] == a;
    }
  }

  /**
   * `s.replace(pat, rep)`: every non-overlapping occurrence of `pat`,
   * scanning from the left, replaced by `rep`.
   */
  function ReplaceAll(s: string, pat: string, rep: string): (r: string)
    requires pat != ""
    ensures Free(s, pat) ==> r == s
    decreases |s|
  {
    if |s| < |pat| then s
    else if s[..|pat|] == pat then
      assert OccursAt(s, pat, 0);
      rep + ReplaceAll(s[|pat|..], pat, rep)
    else
      assert forall i :: 0 <= i < |s[1..]| && OccursAt(s[1..], pat, i) ==> OccursAt(s, pat, i + 1) by {
        forall i | 0 <= i < |s[1..]| && OccursAt(s[1..], pat, i) ensures OccursAt(s, pat, i + 1) {
          assert s[1..][i..i + |pat|] == s[i + 1..i + 1 + |pat|];
        }
      }
      assert [s[0]] + s[1..] == s;
      [s[0]] + ReplaceAll(s[1..], pat, rep)
  }

  /** `pat` occurs in `s` starting at index `i`. */
  predicate OccursAt(s: string, pat: string, i: nat) {
    i + |pat| <= |s| && s[i..i + |pat|] == pat
  }

  /** `pat` occurs nowhere in `s`. */
  predicate Free(s: string, pat: string) {
    forall i :: 0 <= i < |s| ==> !OccursAt(s, pat, i)
  }

  /** `pat` occurs in `s` only as its suffix. */
  predicate OnlyAsSuffix(s: string, pat: string) {
    EndsWith(s, pat) && forall i :: 0 <= i < |s| - |pat| ==> !OccursAt(s, pat, i)
  }

  /** When `pat` occurs only at the end of `s`, replacing it changes just that suffix. */
  lemma {:induction false} ReplaceSuffix(s: string, pat: string, rep: string)
    requires pat != "" && OnlyAsSuffix(s, pat)
    ensures ReplaceAll(s, pat, rep) == s[..|s| - |pat|] + rep
    decreases |s|
  {
    if |s| == |pat| {
      ReplaceAllWhole(s, pat, rep);
    } else {
      OnlyAsSuffixTail(s, pat);
      ReplaceSuffix(s[1..], pat, rep);
      ReplaceAllSkip(s, pat, rep);
      ConsPrefix(s, |s| - 1 - |pat|);
    }
  }

  /** A string that is exactly the pattern is replaced whole. */
  lemma ReplaceAllWhole(s: string, pat: string, rep: string)
    requires pat != "" && |s| == |pat| && EndsWith(s, pat)
    ensures ReplaceAll(s, pat, rep) == s[..|s| - |pat|] + rep
  {
    assert s[..|pat|] == s[|s| - |pat|..] == pat;
    assert ReplaceAll(s[|pat|..], pat, rep) == "";
  }

  /** Where the pattern does not start the string, the first character is kept. */
  lemma ReplaceAllSkip(s: string, pat: string, rep: string)
    requires pat != "" && |s| >= |pat| && s[..|pat|] != pat
    ensures ReplaceAll(s, pat, rep) == [s[0]] + ReplaceAll(s[1..], pat, rep)
  {
  }

  /** Putting the first character back in front of a prefix of the rest. */
  lemma ConsPrefix(s: string, k: nat)
    requires k < |s|
    ensures [s[0]] + s[1..][..k] == s[..k + 1]
  {
  }

  /**
   * The first occurrence of the pattern is replaced, and replacement goes on
   * after it: with no occurrence starting inside `a`, the text `a + pat + b`
   * becomes `a + rep` followed by the replacement of `b`.
   */
  lemma {:induction false} ReplaceAllFirst(a: string, b: string, pat: string, rep: string)
    requires pat != "" && Free(a + pat[..|pat| - 1], pat)
    ensures ReplaceAll(a + pat + b, pat, rep) == a + rep + ReplaceAll(b, pat, rep)
    decreases |a|
  {
    if a == "" {
      ReplaceAllHit(pat + b, pat, rep);
      assert (pat + b)[|pat|..] == b;
      assert a + pat + b == pat + b;
    } else {
      FreeTail(a + pat[..|pat| - 1], pat);
      assert (a + pat[..|pat| - 1])[1..] == a[1..] + pat[..|pat| - 1];
      ReplaceAllFirst(a[1..], b, pat, rep);
      NotAtStart(a, b, pat);
      ReplaceAllFirstStep(a, b, pat, rep);
    }
  }

  lemma ReplaceAllFirstStep(a: string, b: string, pat: string, rep: string)
    requires pat != "" && a != "" && (a + pat + b)[..|pat|] != pat
    requires ReplaceAll(a[1..] + pat + b, pat, rep) == a[1..] + rep + ReplaceAll(b, pat, rep)
    ensures ReplaceAll(a + pat + b, pat, rep) == a + rep + ReplaceAll(b, pat, rep)
  {
    SplitFirst(a, pat, b);
    ReplaceAllSkip(a + pat + b, pat, rep);
    ConsRest(a, rep, ReplaceAll(b, pat, rep));
  }

  /** The first character and the rest of `a + u + v` when `a` is not empty. */
  lemma SplitFirst(a: string, u: string, v: string)
    requires a != ""
    ensures (a + u + v)[0] == a[0] && (a + u + v)[1..] == a[1..] + u + v
  {
  }

  /** Putting the first character back in front of the rest of `a + u + v`. */
  lemma ConsRest(a: string, u: string, v: string)
    requires a != ""
    ensures [a[0]] + (a[1..] + u + v) == a + u + v
  {
    assert [a[0]] + a[1..] == a;
  }

  /** No occurrence starting inside `a` means the pattern does not start `a + pat + b`. */
  lemma NotAtStart(a: string, b: string, pat: string)
    requires pat != "" && a != "" && Free(a + pat[..|pat| - 1], pat)
    ensures (a + pat + b)[..|pat|] != pat
  {
    var head := a + pat[..|pat| - 1];
    assert !OccursAt(head, pat, 0);
    assert head[..|pat|] == (a + pat + b)[..|pat|];
  }

  /** A pattern at the start is replaced and replacement goes on after it. */
  lemma ReplaceAllHit(s: string, pat: string, rep: string)
    requires pat != "" && |s| >= |pat| && s[..|pat|] == pat
    ensures ReplaceAll(s, pat, rep) == rep + ReplaceAll(s[|pat|..], pat, rep)
  {
  }

  /** Dropping the first character keeps a text free of the pattern. */
  lemma FreeTail(s: string, pat: string)
    requires s != "" && Free(s, pat)
    ensures Free(s[1..], pat)
  {
    forall i | 0 <= i < |s[1..]| ensures !OccursAt(s[1..], pat, i) {
      if OccursAt(s[1..], pat, i) {
        assert s[1..][i..i + |pat|] == s[i + 1..i + 1 + |pat|];
        assert OccursAt(s, pat, i + 1);
      }
    }
  }

  lemma OnlyAsSuffixTail(s: string, pat: string)
    requires |s| > |pat| && OnlyAsSuffix(s, pat)
    ensures s[..|pat|] != pat && OnlyAsSuffix(s[1..], pat)
  {
    assert !OccursAt(s, pat, 0);
    assert s[..|pat|] == s[0..|pat|];
    var t := s[1..];
    assert t[|t| - |pat|..] == s[|s| - |pat|..];
    forall i | 0 <= i < |t| - |pat| ensures !OccursAt(t, pat, i) {
      assert t[i..i + |pat|] == s[i + 1..i + 1 + |pat|];
      assert !OccursAt(s, pat, i + 1);
    }
  }

  /** The decimal digit for `d`. */
  function DigitChar(d: nat): (c: char)
    requires d < 10
    ensures '0' <= c <= '9'
  {
    (48 + d) as char
  }

  predicate IsDigits(s: string) {
    forall i :: 0 <= i < |s| ==> '0' <= s[i] <= '9'
  }

  /** `str(n)` for a natural number: its decimal digits with no leading zero. */
  function Decimal(n: nat): (r: string)
    ensures r != "" && IsDigits(r)
    ensures |r| > 1 ==> r[0] != '0'
    decreases n
  {
    if n < 10 then [DigitChar(n)] else Decimal(n / 10) + [DigitChar(n % 10)]
  }

  /** The value of a string of decimal digits; leading zeros add nothing. */
  function ParseDecimal(s: string): nat
    requires IsDigits(s)
    decreases |s|
  {
    if s == "" then 0 else 10 * ParseDecimal(s[..|s| - 1]) + (s[|s| - 1] as int - 48)
  }

  lemma {:induction false} ParseDecimalOfDecimal(n: nat)
    ensures ParseDecimal(Decimal(n)) == n
    decreases n
  {
    if n >= 10 {
      var s := Decimal(n);
      assert s[..|s| - 1] == Decimal(n / 10);
      ParseDecimalOfDecimal(n / 10);
    }
  }

  lemma {:induction false} ParseDecimalLeadingZeros(k: nat, s: string)
    requires IsDigits(s)
    ensures IsDigits(seq(k, _ => '0') + s)
    ensures ParseDecimal(seq(k, _ => '0') + s) == ParseDecimal(s)
    decreases |s|
  {
    var z := seq(k, _ => '0');
    if s == "" {
      ZerosParseToZero(k);
      assert z + s == z;
    } else {
      var t := z + s;
      assert t[..|t| - 1] == z + s[..|s| - 1];
      ParseDecimalLeadingZeros(k, s[..|s| - 1]);
    }
  }

  lemma {:induction false} ZerosParseToZero(k: nat)
    ensures IsDigits(seq(k, _ => '0'))
    ensures ParseDecimal(seq(k, _ => '0')) == 0
    decreases k
  {
    if k > 0 {
      var z := seq(k, _ => '0');
      assert z[..k - 1] == seq(k - 1, _ => '0');
      ZerosParseToZero(k - 1);
    }
  }

  /** Python's `f"{n:04}"`: the decimal digits of `n`, zero-padded to at least four characters. */
  function Pad4(n: nat): (r: string)
    ensures |r| == if |Decimal(n)| < 4 then 4 else |Decimal(n)|
    ensures IsDigits(r) && ParseDecimal(r) == n
  {
    var d := Decimal(n);
    var pad := if |d| < 4 then 4 - |d| else 0;
    ParseDecimalLeadingZeros(pad, d);
    ParseDecimalOfDecimal(n);
    seq(pad, _ => '0') + d
  }

  /** `os.path.join(a, b)` on POSIX: an absolute `b` replaces `a`; otherwise one slash separates them. */
  function PathJoin(a: string, b: string): string {
    if StartsWith(b, "/") then b
    else if a == "" || EndsWith(a, "/") then a + b
    else a + "/" + b
  }

  /**
   * The joined path ends with `b`. An absolute `b` is the whole result;
   * otherwise the result starts with `a`, and a slash is inserted exactly
   * when `a` is non-empty and does not already end with one.
   */
  lemma PathJoinParts(a: string, b: string)
    ensures EndsWith(PathJoin(a, b), b)
    ensures StartsWith(b, "/") ==> PathJoin(a, b) == b
    ensures !StartsWith(b, "/") ==> StartsWith(PathJoin(a, b), a)
    ensures !StartsWith(b, "/") && (a == "" || EndsWith(a, "/")) ==> |PathJoin(a, b)| == |a| + |b|
    ensures !StartsWith(b, "/") && a != "" && !EndsWith(a, "/") ==>
      |PathJoin(a, b)| == |a| + 1 + |b| && PathJoin(a, b)[|a|] == '/'
  {
    var r := PathJoin(a, b);
    if !StartsWith(b, "/") {
      if a == "" || EndsWith(a, "/") {
        assert r[..|a|] == a && r[|r| - |b|..] == b;
      } else {
        assert r[..|a|] == a && r[|r| - |b|..] == b;
      }
    }
  }

  /** Python's `a < b` on strings: code-point lexicographic order, a proper prefix first. */
  predicate LexLess(a: string, b: string)
    decreases |a|
  {
    if a == "" then b != ""
    else if b == "" then false
    else if a[0] != b[0] then a[0] < b[0]
    else LexLess(a[1..], b[1..])
  }

  lemma {:induction false} LexLessIrreflexive(a: string)
    ensures !LexLess(a, a)
    decreases |a|
  {
    if a != "" {
      LexLessIrreflexive(a[1..]);
    }
  }

  lemma {:induction false} LexLessTransitive(a: string, b: string, c: string)
    requires LexLess(a, b) && LexLess(b, c)
    ensures LexLess(a, c)
    decreases |a|
  {
    if a != "" && b != "" && c != "" && a[0] == b[0] && b[0] == c[0] {
      LexLessTransitive(a[1..], b[1..], c[1..]);
    }
  }

  lemma {:induction false} LexLessTotal(a: string, b: string)
    ensures a == b || LexLess(a, b) || LexLess(b, a)
    decreases |a|
  {
    if a != "" && b != "" && a[0] == b[0] {
      LexLessTotal(a[1..], b[1..]);
      if a[1..] == b[1..] {
        assert a == [a[0]] + a[1..] && b == [b[0]] + b[1..];
      }
    }
  }

  /** Strictly increasing in Python's string order, hence free of repeats. */
  predicate StrictlySorted(s: seq<string>) {
    forall i, j :: 0 <= i < j < |s| ==> LexLess(s[i], s[j])
  }

  /** Inserts `x` into a strictly sorted list that lacks it, keeping it strictly sorted. */
  function InsertSorted(s: seq<string>, x: string): (r: seq<string>)
    requires StrictlySorted(s) && x !in s
    ensures StrictlySorted(r)
    ensures multiset(r) == multiset(s) + multiset{x}
    decreases |s|
  {
    if s == [] then [x]
    else if LexLess(x, s[0]) then
      assert forall j :: 0 <= j < |s| ==> LexLess(x, s[j]) by {
        forall j | 0 <= j < |s| ensures LexLess(x, s[j]) {
          if j > 0 { LexLessTransitive(x, s[0], s[j]); }
        }
      }
      SortedCons(x, s);
      [x] + s
    else
      LexLessTotal(x, s[0]);
      var rest := InsertSorted(s[1..], x);
      assert s == [s[0]] + s[1..];
      assert forall j :: 0 <= j < |rest| ==> LexLess(s[0], rest[j]) by {
        forall j | 0 <= j < |rest| ensures LexLess(s[0], rest[j]) {
          assert rest[j] in multiset(rest);
          if rest[j] != x {
            assert rest[j] in multiset(s[1..]);
            var k :| 0 <= k < |s[1..]| && s[1..][k] == rest[j];
            assert s[k + 1] == rest[j];
          }
        }
      }
      SortedCons(s[0], rest);
      [s[0]] + rest
  }

  lemma SortedCons(h: string, t: seq<string>)
    requires StrictlySorted(t)
    requires forall j :: 0 <= j < |t| ==> LexLess(h, t[j])
    ensures StrictlySorted([h] + t)
  {
    forall i, j | 0 <= i < j < |[h] + t| ensures LexLess(([h] + t)[i], ([h] + t)[j]) {
      if i > 0 {
        assert ([h] + t)[i] == t[i - 1];
      }
      assert ([h] + t)[j] == t[j - 1];
    }
  }

  /** Two strictly sorted lists with the same elements are the same list: `sorted` is determined by its set. */
  lemma {:induction false} StrictlySortedUnique(s: seq<string>, t: seq<string>)
    requires StrictlySorted(s) && StrictlySorted(t)
    requires forall x :: x in s <==> x in t
    ensures s == t
    decreases |s|
  {
    assert s != [] ==> s[0] in t;
    assert t != [] ==> t[0] in s;
    if s != [] && t != [] {
      var i :| 0 <= i < |t| && t[i] == s[0];
      var j :| 0 <= j < |s| && s[j] == t[0];
      if i > 0 && j > 0 {
        assert LexLess(t[0], s[0]) && LexLess(s[0], t[0]);
        LexLessTransitive(s[0], t[0], s[0]);
        LexLessIrreflexive(s[0]);
      }
      assert s[0] == t[0];
      forall x | x in s[1..] ensures x in t[1..] {
        var k :| 0 <= k < |s[1..]| && s[1..][k] == x;
        assert LexLess(s[0], x);
        LexLessIrreflexive(x);
        assert x in t;
        var l :| 0 <= l < |t| && t[l] == x;
        assert l != 0;
        assert t[1..][l - 1] == x;
      }
      forall x | x in t[1..] ensures x in s[1..] {
        var k :| 0 <= k < |t[1..]| && t[1..][k] == x;
        assert LexLess(t[0], x);
        LexLessIrreflexive(x);
        assert x in s;
        var l :| 0 <= l < |s| && s[l] == x;
        assert l != 0;
        assert s[1..][l - 1] == x;
      }
      StrictlySortedUnique(s[1..], t[1..]);
      assert s == [s[0]] + s[1..] && t == [t[0]] + t[1..];
    }
  }

  /** The plural suffix `_s` adds after a count: nothing for exactly one, "s" otherwise. */
  function Plural(count: int): (r: string)
    ensures r == "" <==> count == 1
    ensures r == "" || r == "s"
  {
    if count == 1 then "" else "s"
  }
}
