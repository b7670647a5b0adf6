/** String primitives the application relies on: whitespace, `strip()`,
    `lower()`, `splitlines()` and `split()` with no separator, modelled on
    `seq<char>`. Whitespace is the ASCII part of Python's `str.isspace`
    (which includes the four separators '\x1c' to '\x1f'); lines are
    separated by '\n' only; lower-casing covers ASCII letters. */
module Text {

  /** Space, tab, line feed, vertical tab, form feed, carriage return, and
      the file, group, record and unit separators ('\x1c' to '\x1f'). */
  predicate IsSpace(c: char) {
    c == ' ' || '\t' <= c <= '\r' || '\U{1C}' <= c <= '\U{1F}'
  }

  /** Every character is whitespace (this includes the empty string). */
  predicate IsBlank(s: string) {
    forall i :: 0 <= i < |s| ==> IsSpace(s[i])
  }

  /** No character is whitespace. */
  predicate NoSpace(s: string) {
    forall i :: 0 <= i < |s| ==> !IsSpace(s[i])
  }

  lemma BlankAppend(a: string, b: string)
    ensures IsBlank(a + b) <==> IsBlank(a) && IsBlank(b)
  {
    if IsBlank(a) && IsBlank(b) {
      forall i | 0 <= i < |a + b| ensures IsSpace((a + b)[i]) {
        if i >= |a| { assert (a + b)[i] == b[i - |a|]; }
      }
    }
    if IsBlank(a + b) {
      forall i | 0 <= i < |a| ensures IsSpace(a[i]) {
        assert (a + b)[i] == a[i];
      }
      forall i | 0 <= i < |b| ensures IsSpace(b[i]) {
        assert (a + b)[|a| + i] == b[i];
      }
    }
  }

  // ---------------------------------------------------------------- strip

  /** End of the run of whitespace that starts at `i`. */
  function SpaceEnd(s: string, i: nat): (n: nat)
    requires i <= |s|
    ensures i <= n <= |s|
    ensures forall k :: i <= k < n ==> IsSpace(s[k])
    ensures n < |s| ==> !IsSpace(s[n])
    decreases |s| - i
  {
    if i == |s| || !IsSpace(s[i]) then i else SpaceEnd(s, i + 1)
  }

  /** Start of the run of whitespace that ends at `j`. */
  function SpaceStart(s: string, j: nat): (n: nat)
    requires j <= |s|
    ensures n <= j
    ensures forall k :: n <= k < j ==> IsSpace(s[k])
    ensures 0 < n ==> !IsSpace(s[n - 1])
    decreases j
  {
    if j == 0 || !IsSpace(s[j - 1]) then j else SpaceStart(s, j - 1)
  }

  /** Python's `str.strip()`: empty exactly when `s` is blank, and otherwise
      neither end of the result is whitespace. */
  function Strip(s: string): (r: string)
    ensures r == [] <==> IsBlank(s)
    ensures r != [] ==> !IsSpace(r[0]) && !IsSpace(r[|r| - 1])
  {
    var i := SpaceEnd(s, 0);
    if i == |s| then [] else s[i..SpaceStart(s, |s|)]
  }

  /** `strip()` removes only whitespace, and only at the two ends: its
      result is the slice of `s` between a blank prefix and a blank suffix. */
  lemma StripIsSlice(s: string)
    ensures exists i :: 0 <= i <= |s| - |Strip(s)| && Strip(s) == s[i..i + |Strip(s)|]
                        && IsBlank(s[..i]) && IsBlank(s[i + |Strip(s)|..])
  {
    StripSlice(s);
  }

  /** The slice `strip()` keeps starts where the leading whitespace ends. */
  lemma StripSlice(s: string)
    ensures var i := SpaceEnd(s, 0);
            && i + |Strip(s)| <= |s| && Strip(s) == s[i..i + |Strip(s)|]
            && IsBlank(s[..i]) && IsBlank(s[i + |Strip(s)|..])
  {
    var i := SpaceEnd(s, 0);
    var j := if i == |s| then |s| else SpaceStart(s, |s|);
    assert Strip(s) == s[i..j];
    forall k | 0 <= k < i ensures IsSpace(s[..i][k]) {
      assert s[..i][k] == s[k];
    }
    forall k | 0 <= k < |s| - j ensures IsSpace(s[j..][k]) {
      assert s[j..][k] == s[j + k];
    }
  }

  /** A string whose ends are not whitespace is left as it is. */
  lemma StripTrimmed(s: string)
    requires s == [] || (!IsSpace(s[0]) && !IsSpace(s[|s| - 1]))
    ensures Strip(s) == s
  {
  }

  // ---------------------------------------------------------------- lower

  function LowerChar(c: char): char {
    if 'A' <= c <= 'Z' then (c as int + 32) as char else c
  }

  /** Python's `str.lower()` on ASCII letters: same length, no upper-case
      letter left, upper-case letters mapped to their lower-case partner and
      every other character kept. */
  function Lower(s: string): (r: string)
    ensures |r| == |s|
    ensures forall i :: 0 <= i < |r| ==> !('A' <= r[i] <= 'Z')
    ensures forall i :: 0 <= i < |s| && !('A' <= s[i] <= 'Z') ==> r[i] == s[i]
    ensures forall i :: 0 <= i < |s| && 'A' <= s[i] <= 'Z' ==> r[i] as int == s[i] as int + 32
  {
    seq(|s|, i requires 0 <= i < |s| => LowerChar(s[i]))
  }

  /** A string without upper-case letters is left as it is. */
  lemma LowerIdempotent(s: string)
    requires forall i :: 0 <= i < |s| ==> !('A' <= s[i] <= 'Z')
    ensures Lower(s) == s
  {
  }

  // ---------------------------------------------------------------- lines

  /** Position of the first `c` in `s`, or `|s|` when there is none. */
  function IndexOf(s: string, c: char): (i: nat)
    ensures i <= |s|
    ensures c !in s[..i]
    ensures i < |s| ==> s[i] == c
    decreases |s|
  {
    if s == [] || s[0] == c then 0
    else
      var i := IndexOf(s[1..], c);
      assert s[..1 + i] == [s[0]] + s[1..][..i];
      1 + i
  }

  lemma IndexOfSeparator(a: string, c: char, b: string)
    requires c !in a
    ensures IndexOf(a + [c] + b, c) == |a|
  {
    var s := a + [c] + b;
    assert s[|a|] == c;
    assert s[..|a|] == a;
  }

  /** Every line followed by a line feed: the text `SplitLines` reads back. */
  function JoinLines(lines: seq<string>): string {
    if lines == [] then [] else lines[0] + "\n" + JoinLines(lines[1..])
  }

  /** Python's `str.splitlines()` for '\n' separators: the lines hold no line
      feed, and terminating each of them with one gives back the text, with a
      line feed added when the text did not end with one (an empty text has
      no line at all). */
  function SplitLines(s: string): (lines: seq<string>)
    ensures forall k :: 0 <= k < |lines| ==> '\n' !in lines[k]
    ensures JoinLines(lines) == if s == [] || s[|s| - 1] == '\n' then s else s + "\n"
    decreases |s|
  {
    if s == [] then []
    else
      var i := IndexOf(s, '\n');
      if i == |s| then
        assert s[..i] == s;
        assert JoinLines([s]) == s + "\n" + JoinLines([]);
        [s]
      else
        var rest := SplitLines(s[i + 1..]);
        JoinLinesCons(s, i, rest);
        [s[..i]] + rest
  }

  lemma JoinLinesCons(s: string, i: nat, rest: seq<string>)
    requires i < |s| && s[i] == '\n'
    requires JoinLines(rest) == if s[i + 1..] == [] || s[|s| - 1] == '\n' then s[i + 1..] else s[i + 1..] + "\n"
    ensures JoinLines([s[..i]] + rest) == if s[|s| - 1] == '\n' then s else s + "\n"
  {
    var a, t := s[..i], s[i + 1..];
    assert ([a] + rest)[0] == a && ([a] + rest)[1..] == rest;
    assert JoinLines([a] + rest) == a + "\n" + JoinLines(rest);
    assert s == a + "\n" + t;
    if t != [] {
      assert s[|s| - 1] == t[|t| - 1];
      if t[|t| - 1] != '\n' {
        assert a + "\n" + (t + "\n") == s + "\n";
      }
    }
  }

  /** Round trip: lines without line feeds survive joining and splitting. */
  lemma {:induction false} SplitJoinLines(lines: seq<string>)
    requires forall k :: 0 <= k < |lines| ==> '\n' !in lines[k]
    ensures SplitLines(JoinLines(lines)) == lines
  {
    if lines != [] {
      var rest := JoinLines(lines[1..]);
      var s := JoinLines(lines);
      assert s == lines[0] + "\n" + rest;
      IndexOfSeparator(lines[0], '\n', rest);
      assert s[..|lines[0]|] == lines[0];
      assert s[|lines[0]| + 1..] == rest;
      SplitJoinLines(lines[1..]);
    }
  }

  // ---------------------------------------------------------------- words

  /** Length of the run of non-whitespace characters that starts `s`. */
  function WordEnd(s: string): (n: nat)
    ensures n <= |s|
    ensures NoSpace(s[..n])
    ensures n < |s| ==> IsSpace(s[n])
    decreases |s|
  {
    if s == [] || IsSpace(s[0]) then 0
    else
      var n := WordEnd(s[1..]);
      assert s[..1 + n] == [s[0]] + s[1..][..n];
      1 + n
  }

  /** Python's `str.split()`: the maximal runs of non-whitespace characters,
      left to right. Every word is non-empty and holds no whitespace, and
      there is no word exactly when `s` is blank. */
  function SplitWords(s: string): (words: seq<string>)
    ensures forall k :: 0 <= k < |words| ==> words[k] != [] && NoSpace(words[k])
    ensures words == [] <==> IsBlank(s)
    decreases |s|
  {
    if s == [] then []
    else if IsSpace(s[0]) then
      assert s == [s[0]] + s[1..];
      BlankAppend([s[0]], s[1..]);
      SplitWords(s[1..])
    else
      var n := WordEnd(s);
      [s[..n]] + SplitWords(s[n..])
  }

  /** The words separated by single spaces: the text `SplitWords` reads back. */
  function JoinWords(words: seq<string>): string
    decreases |words|
  {
    if |words| == 0 then []
    else if |words| == 1 then words[0]
    else words[0] + " " + JoinWords(words[1..])
  }

  /** Concatenation of a sequence of strings. */
  function Concat(ss: seq<string>): string {
    if ss == [] then [] else ss[0] + Concat(ss[1..])
  }

  lemma ConcatAppend(a: seq<string>, b: seq<string>)
    ensures Concat(a + b) == Concat(a) + Concat(b)
  {
    if a != [] {
      assert (a + b)[0] == a[0];
      assert (a + b)[1..] == a[1..] + b;
      ConcatAppend(a[1..], b);
      assert Concat(a + b) == a[0] + (Concat(a[1..]) + Concat(b));
    } else {
      assert a + b == b;
    }
  }

  /** The non-whitespace characters of `s`, in order. */
  function RemoveSpaces(s: string): string {
    if s == [] then [] else (if IsSpace(s[0]) then [] else [s[0]]) + RemoveSpaces(s[1..])
  }

  lemma RemoveSpacesAppend(a: string, b: string)
    ensures RemoveSpaces(a + b) == RemoveSpaces(a) + RemoveSpaces(b)
  {
    if a != [] {
      assert (a + b)[0] == a[0];
      assert (a + b)[1..] == a[1..] + b;
      RemoveSpacesAppend(a[1..], b);
    } else {
      assert a + b == b;
    }
  }

  lemma RemoveSpacesKeeps(s: string)
    requires NoSpace(s)
    ensures RemoveSpaces(s) == s
  {
    if s != [] {
      assert NoSpace(s[1..]) by {
        forall i | 0 <= i < |s[1..]| ensures !IsSpace(s[1..][i]) {
          assert s[1..][i] == s[i + 1];
        }
      }
      RemoveSpacesKeeps(s[1..]);
      assert s == [s[0]] + s[1..];
    }
  }

  lemma {:induction false} RemoveSpacesEmpty(s: string)
    ensures RemoveSpaces(s) == [] <==> IsBlank(s)
  {
    if s != [] {
      RemoveSpacesEmpty(s[1..]);
      assert s == [s[0]] + s[1..];
      BlankAppend([s[0]], s[1..]);
    }
  }

  /** Whitespace around a string contributes nothing to its text. */
  lemma RemoveSpacesFramed(pre: string, mid: string, post: string)
    requires IsBlank(pre) && IsBlank(post)
    ensures RemoveSpaces(pre + mid + post) == RemoveSpaces(mid)
  {
    RemoveSpacesAppend(pre + mid, post);
    RemoveSpacesAppend(pre, mid);
    RemoveSpacesEmpty(pre);
    RemoveSpacesEmpty(post);
  }

  /** Stripping loses only whitespace. */
  lemma StripKeepsText(s: string)
    ensures RemoveSpaces(Strip(s)) == RemoveSpaces(s)
  {
    StripSlice(s);
    FramedKeepsText(s, SpaceEnd(s, 0), Strip(s));
  }

  lemma FramedKeepsText(s: string, i: nat, r: string)
    requires i + |r| <= |s| && r == s[i..i + |r|]
    requires IsBlank(s[..i]) && IsBlank(s[i + |r|..])
    ensures RemoveSpaces(r) == RemoveSpaces(s)
  {
    assert s == s[..i] + r + s[i + |r|..];
    RemoveSpacesFramed(s[..i], r, s[i + |r|..]);
  }

  /** Splitting loses only whitespace: the words, glued together, are the
      non-whitespace characters of the line in their original order. */
  lemma {:induction false} SplitWordsKeepsText(s: string)
    ensures Concat(SplitWords(s)) == RemoveSpaces(s)
    decreases |s|
  {
    if s != [] {
      if IsSpace(s[0]) {
        SplitWordsKeepsText(s[1..]);
      } else {
        var n := WordEnd(s);
        assert s == s[..n] + s[n..];
        RemoveSpacesAppend(s[..n], s[n..]);
        RemoveSpacesKeeps(s[..n]);
        SplitWordsKeepsText(s[n..]);
        assert ([s[..n]] + SplitWords(s[n..]))[1..] == SplitWords(s[n..]);
      }
    }
  }

  lemma SplitWordsAfterWord(w: string, t: string)
    requires w != [] && NoSpace(w)
    requires t == [] || IsSpace(t[0])
    ensures SplitWords(w + t) == [w] + SplitWords(t)
  {
    var s := w + t;
    var n := WordEnd(s);
    assert s[..|w|] == w;
    assert s[..n] == w;
    assert s[n..] == t;
  }

  /** Round trip: words without whitespace survive joining with spaces and
      splitting. */
  lemma {:induction false} SplitJoinWords(words: seq<string>)
    requires forall k :: 0 <= k < |words| ==> words[k] != [] && NoSpace(words[k])
    ensures SplitWords(JoinWords(words)) == words
    decreases |words|
  {
    if |words| == 1 {
      SplitWordsAfterWord(words[0], []);
      assert words[0] + [] == words[0];
    } else if |words| > 1 {
      var rest := JoinWords(words[1..]);
      SplitWordsAfterWord(words[0], " " + rest);
      assert words[0] + " " + rest == words[0] + (" " + rest);
      assert (" " + rest)[1..] == rest;
      SplitJoinWords(words[1..]);
    }
  }

  /** The words with separators between and around them:
      `seps[0] + words[0] + seps[1] + ... + words[n - 1] + seps[n]`. */
  function Weave(seps: seq<string>, words: seq<string>): string
    requires |seps| == |words| + 1
    decreases |words|
  {
    if words == [] then seps[0] else seps[0] + words[0] + Weave(seps[1..], words[1..])
  }

  /** Separators that `SplitWords` may drop: all blank, and the ones between
      two words non-empty. */
  predicate Separators(seps: seq<string>) {
    && (forall k :: 0 <= k < |seps| ==> IsBlank(seps[k]))
    && (forall k :: 0 < k < |seps| - 1 ==> seps[k] != [])
  }

  lemma WeaveLonger(c: char, seps: seq<string>, words: seq<string>)
    requires |seps| == |words| + 1
    ensures Weave([[c] + seps[0]] + seps[1..], words) == [c] + Weave(seps, words)
  {
    var seps' := [[c] + seps[0]] + seps[1..];
    assert seps'[1..] == seps[1..];
  }

  /** The separators `SplitWords` drops from `s`; the first one is non-empty
      when `s` starts with whitespace. */
  lemma {:induction false} SplitWordsGaps(s: string) returns (seps: seq<string>)
    ensures |seps| == |SplitWords(s)| + 1 && Separators(seps)
    ensures s == Weave(seps, SplitWords(s))
    ensures s != [] && IsSpace(s[0]) ==> seps[0] != []
    decreases |s|
  {
    if s == [] {
      seps := [[]];
    } else if IsSpace(s[0]) {
      var rest := SplitWordsGaps(s[1..]);
      seps := GapsAfterSpace(s, rest);
    } else {
      var n := WordEnd(s);
      var rest := SplitWordsGaps(s[n..]);
      assert s == s[..n] + s[n..];
      seps := GapsAfterWord(s[..n], s[n..], rest);
    }
  }

  /** A leading space joins the first separator of the rest of the line. */
  lemma GapsAfterSpace(s: string, rest: seq<string>) returns (seps: seq<string>)
    requires s != [] && IsSpace(s[0])
    requires |rest| == |SplitWords(s[1..])| + 1 && Separators(rest)
    requires s[1..] == Weave(rest, SplitWords(s[1..]))
    ensures |seps| == |SplitWords(s)| + 1 && Separators(seps)
    ensures s == Weave(seps, SplitWords(s)) && seps[0] != []
  {
    seps := [[s[0]] + rest[0]] + rest[1..];
    BlankAppend([s[0]], rest[0]);
    WeaveLonger(s[0], rest, SplitWords(s[1..]));
    assert s == [s[0]] + s[1..];
    forall k | 0 < k < |seps| ensures IsBlank(seps[k]) && (k < |seps| - 1 ==> seps[k] != []) {
      assert seps[k] == rest[k];
    }
  }

  /** A leading word takes an empty first separator before the rest's. */
  lemma GapsAfterWord(w: string, t: string, rest: seq<string>) returns (seps: seq<string>)
    requires w != [] && NoSpace(w) && (t == [] || IsSpace(t[0]))
    requires |rest| == |SplitWords(t)| + 1 && Separators(rest)
    requires t == Weave(rest, SplitWords(t))
    requires t != [] ==> rest[0] != []
    ensures |seps| == |SplitWords(w + t)| + 1 && Separators(seps)
    ensures w + t == Weave(seps, SplitWords(w + t))
  {
    var words := SplitWords(t);
    SplitWordsAfterWord(w, t);
    seps := [[]] + rest;
    WeaveCons([], w, rest, words);
    assert [] + w == w;
    SeparatorsCons(rest, words != []);
  }

  lemma WeaveCons(sep: string, w: string, rest: seq<string>, words: seq<string>)
    requires |rest| == |words| + 1
    ensures Weave([sep] + rest, [w] + words) == sep + w + Weave(rest, words)
  {
    assert ([sep] + rest)[1..] == rest;
    assert ([w] + words)[1..] == words;
  }

  lemma SeparatorsCons(rest: seq<string>, inner: bool)
    requires |rest| >= 1 && Separators(rest)
    requires inner ==> rest[0] != []
    requires |rest| > 1 ==> inner
    ensures Separators([[]] + rest)
  {
    var seps := [[]] + rest;
    forall k | 0 < k < |seps| ensures IsBlank(seps[k]) && (k < |seps| - 1 ==> seps[k] != []) {
      assert seps[k] == rest[k - 1];
    }
  }

  /** `split()` cuts at every run of whitespace and nowhere else: the line
      is its words woven with blank separators, and every separator between
      two words is non-empty, so each word is a maximal non-whitespace run. */
  lemma SplitWordsMaximal(s: string)
    ensures exists seps :: |seps| == |SplitWords(s)| + 1 && Separators(seps)
                           && s == Weave(seps, SplitWords(s))
  {
    var seps := SplitWordsGaps(s);
  }

  lemma WordEndBeforeSpace(s: string, t: string)
    requires t == [] || IsSpace(t[0])
    ensures WordEnd(s + t) == WordEnd(s)
    decreases |s|
  {
    if s != [] && !IsSpace(s[0]) {
      assert (s + t)[1..] == s[1..] + t;
      WordEndBeforeSpace(s[1..], t);
    } else if s == [] {
      assert s + t == t;
    }
  }

  /** Trailing whitespace adds no word: `split()` ignores it. */
  lemma {:induction false} SplitWordsBlankSuffix(s: string, t: string)
    requires IsBlank(t)
    ensures SplitWords(s + t) == SplitWords(s)
    decreases |s|
  {
    if s == [] {
      assert s + t == t;
    } else if IsSpace(s[0]) {
      assert (s + t)[1..] == s[1..] + t;
      SplitWordsBlankSuffix(s[1..], t);
    } else {
      var n := WordEnd(s);
      if n < |s| {
        assert s == s[..n] + s[n..];
        assert s + t == s[..n] + (s[n..] + t);
        WordEndBeforeSpace(s[..n], s[n..] + t);
        WordEndBeforeSpace(s[..n], s[n..]);
      } else {
        assert s[..n] == s;
        WordEndBeforeSpace(s, t);
      }
      assert (s + t)[..n] == s[..n];
      assert (s + t)[n..] == s[n..] + t;
      SplitWordsBlankSuffix(s[n..], t);
    }
  }
}
