/** The tokenizer at the top of the PDF builder (app.py:150-158): the input
    text becomes a sequence of word tokens and end-of-line markers, line by
    line, in source order. */
module Tokenizer {
  import opened Text

  /** A word to place, or the marker that closes a source line. */
  datatype Token = Word(text: string) | Newline

  function WordTokens(words: seq<string>): seq<Token> {
    seq(|words|, k requires 0 <= k < |words| => Word(words[k]))
  }

  /** One source line: a blank line gives only the marker, any other line its
      whitespace-separated words followed by the marker. */
  function TokenizeLine(line: string): seq<Token> {
    if Strip(line) == [] then [Newline]
    else WordTokens(SplitWords(line)) + [Newline]
  }

  function TokenizeLines(lines: seq<string>): seq<Token> {
    if lines == [] then [] else TokenizeLine(lines[0]) + TokenizeLines(lines[1..])
  }

  /** The token sequence the layout loop walks. */
  function Tokenize(text: string): seq<Token> {
    TokenizeLines(SplitLines(text))
  }

  /** The texts of the non-empty word tokens, in order: the words the layout
      draws (it skips an empty word, app.py:174-176). */
  function PlacedWords(toks: seq<Token>): seq<string> {
    if toks == [] then []
    else (if toks[0].Word? && toks[0].text != [] then [toks[0].text] else []) + PlacedWords(toks[1..])
  }

  function NewlineCount(toks: seq<Token>): nat {
    if toks == [] then 0 else (if toks[0].Newline? then 1 else 0) + NewlineCount(toks[1..])
  }

  /** All the words of all the lines, line after line. */
  function LineWords(lines: seq<string>): seq<string> {
    if lines == [] then [] else SplitWords(lines[0]) + LineWords(lines[1..])
  }

  predicate WordsWellFormed(toks: seq<Token>) {
    forall k :: 0 <= k < |toks| && toks[k].Word? ==> toks[k].text != [] && NoSpace(toks[k].text)
  }

  lemma PlacedWordsAppend(a: seq<Token>, b: seq<Token>)
    ensures PlacedWords(a + b) == PlacedWords(a) + PlacedWords(b)
  {
    if a == [] {
      assert a + b == b;
    } else {
      assert (a + b)[0] == a[0];
      assert (a + b)[1..] == a[1..] + b;
      PlacedWordsAppend(a[1..], b);
    }
  }

  lemma NewlineCountAppend(a: seq<Token>, b: seq<Token>)
    ensures NewlineCount(a + b) == NewlineCount(a) + NewlineCount(b)
  {
    if a == [] {
      assert a + b == b;
    } else {
      assert (a + b)[0] == a[0];
      assert (a + b)[1..] == a[1..] + b;
      NewlineCountAppend(a[1..], b);
    }
  }

  lemma {:induction false} WordTokensFacts(words: seq<string>)
    requires forall k :: 0 <= k < |words| ==> words[k] != []
    ensures PlacedWords(WordTokens(words)) == words
    ensures NewlineCount(WordTokens(words)) == 0
    decreases |words|
  {
    if words != [] {
      assert WordTokens(words) == [Word(words[0])] + WordTokens(words[1..]);
      PlacedWordsAppend([Word(words[0])], WordTokens(words[1..]));
      NewlineCountAppend([Word(words[0])], WordTokens(words[1..]));
      WordTokensFacts(words[1..]);
    }
  }

  /** The blank-line test is redundant: every line yields its words followed
      by exactly one end-of-line marker, and a blank line has no words. */
  lemma TokenizeLineShape(line: string)
    ensures TokenizeLine(line) == WordTokens(SplitWords(line)) + [Newline]
    ensures PlacedWords(TokenizeLine(line)) == SplitWords(line)
    ensures NewlineCount(TokenizeLine(line)) == 1
    ensures IsBlank(line) <==> TokenizeLine(line) == [Newline]
  {
    var words := SplitWords(line);
    if IsBlank(line) {
      assert WordTokens(words) == [];
    }
    WordTokensFacts(words);
    PlacedWordsAppend(WordTokens(words), [Newline]);
    NewlineCountAppend(WordTokens(words), [Newline]);
    assert PlacedWords([Newline]) == [];
    if !IsBlank(line) {
      assert |TokenizeLine(line)| > 1;
    }
  }

  lemma WordsWellFormedAppend(a: seq<Token>, b: seq<Token>)
    requires WordsWellFormed(a) && WordsWellFormed(b)
    ensures WordsWellFormed(a + b)
  {
    forall k | 0 <= k < |a + b| && (a + b)[k].Word?
      ensures (a + b)[k].text != [] && NoSpace((a + b)[k].text)
    {
      if k < |a| { assert (a + b)[k] == a[k]; } else { assert (a + b)[k] == b[k - |a|]; }
    }
  }

  /** The words of a line become word tokens that are non-empty and free of
      whitespace. */
  lemma TokenizeLineWellFormed(line: string)
    ensures WordsWellFormed(TokenizeLine(line))
  {
    var words := SplitWords(line);
    assert WordsWellFormed(WordTokens(words)) by {
      forall k | 0 <= k < |WordTokens(words)|
        ensures WordTokens(words)[k] == Word(words[k])
      {
      }
    }
    assert WordsWellFormed([Newline]);
    WordsWellFormedAppend(WordTokens(words), [Newline]);
  }

  /** Over a whole text: one end-of-line marker per source line, the words
      of every line in order, and each word non-empty and free of
      whitespace, so the empty-word guard of the layout loop never fires. */
  lemma {:induction false} TokenizeLinesFacts(lines: seq<string>)
    ensures NewlineCount(TokenizeLines(lines)) == |lines|
    ensures PlacedWords(TokenizeLines(lines)) == LineWords(lines)
    ensures WordsWellFormed(TokenizeLines(lines))
    decreases |lines|
  {
    if lines != [] {
      var head := TokenizeLine(lines[0]);
      var tail := TokenizeLines(lines[1..]);
      assert TokenizeLines(lines) == head + tail;
      assert LineWords(lines) == SplitWords(lines[0]) + LineWords(lines[1..]);
      TokenizeLineShape(lines[0]);
      TokenizeLineWellFormed(lines[0]);
      TokenizeLinesFacts(lines[1..]);
      NewlineCountAppend(head, tail);
      PlacedWordsAppend(head, tail);
      WordsWellFormedAppend(head, tail);
    }
  }

  /** The tokenizer keeps exactly the non-whitespace characters of the text:
      glued together, the words it produces are the text with all whitespace
      (line feeds included) removed, and there is one end-of-line marker per
      source line. */
  lemma {:induction false} TokenizeKeepsText(text: string)
    ensures Concat(PlacedWords(Tokenize(text))) == RemoveSpaces(text)
    ensures NewlineCount(Tokenize(text)) == |SplitLines(text)|
    ensures WordsWellFormed(Tokenize(text))
  {
    var lines := SplitLines(text);
    TokenizeLinesFacts(lines);
    LineWordsKeepText(lines);
    RemoveSpacesAppend(text, "\n");
    assert RemoveSpaces("\n") == [];
  }

  lemma {:induction false} LineWordsKeepText(lines: seq<string>)
    ensures Concat(LineWords(lines)) == RemoveSpaces(JoinLines(lines))
    decreases |lines|
  {
    if lines != [] {
      LineWordsKeepText(lines[1..]);
      ConcatAppend(SplitWords(lines[0]), LineWords(lines[1..]));
      SplitWordsKeepsText(lines[0]);
      RemoveSpacesAppend(lines[0] + "\n", JoinLines(lines[1..]));
      RemoveSpacesAppend(lines[0], "\n");
      assert RemoveSpaces("\n") == [];
    }
  }

  /** A text yields no word at all exactly when it is blank. */
  lemma NoWordsIffBlank(text: string)
    ensures PlacedWords(Tokenize(text)) == [] <==> IsBlank(text)
  {
    var ws := PlacedWords(Tokenize(text));
    TokenizeKeepsText(text);
    RemoveSpacesEmpty(text);
    PlacedWordsNonEmpty(Tokenize(text));
    if ws != [] {
      assert Concat(ws) == ws[0] + Concat(ws[1..]);
    }
  }

  lemma {:induction false} PlacedWordsNonEmpty(toks: seq<Token>)
    ensures forall k :: 0 <= k < |PlacedWords(toks)| ==> PlacedWords(toks)[k] != []
  {
    if toks != [] {
      PlacedWordsNonEmpty(toks[1..]);
    }
  }

  /** The lines each ended by a carriage return, as a browser submits them:
      `JoinLines(CrLines(lines))` is the text with "\r\n" line ends. */
  function CrLines(lines: seq<string>): (r: seq<string>)
    ensures |r| == |lines|
  {
    seq(|lines|, k requires 0 <= k < |lines| => lines[k] + "\r")
  }

  lemma CrLineTokens(line: string)
    ensures TokenizeLine(line + "\r") == TokenizeLine(line)
  {
    BlankAppend(line, "\r");
    SplitWordsBlankSuffix(line, "\r");
  }

  /** "\r\n" line ends give the same tokens as "\n" line ends: the line
      breaks at the '\n', and the '\r' left on each line is whitespace that
      `strip()` and `split()` drop. */
  lemma {:induction false} CrLfLineEnds(lines: seq<string>)
    requires forall k :: 0 <= k < |lines| ==> '\n' !in lines[k]
    ensures Tokenize(JoinLines(CrLines(lines))) == Tokenize(JoinLines(lines))
  {
    var cr := CrLines(lines);
    forall k | 0 <= k < |cr| ensures '\n' !in cr[k] {
      assert cr[k] == lines[k] + "\r";
    }
    SplitJoinLines(cr);
    SplitJoinLines(lines);
    CrTokenizeLines(lines);
  }

  lemma {:induction false} CrTokenizeLines(lines: seq<string>)
    ensures TokenizeLines(CrLines(lines)) == TokenizeLines(lines)
  {
    if lines != [] {
      var cr := CrLines(lines);
      assert cr[0] == lines[0] + "\r";
      assert cr[1..] == CrLines(lines[1..]);
      CrLineTokens(lines[0]);
      CrTokenizeLines(lines[1..]);
    }
  }
}
