/** The drawing calls the PDF builder makes on its canvas, as data, and the
    projections used to read a stream of them back: the words drawn, the
    number of pages, and how each page begins. Colours are fixed per
    instruction kind (the page fill and panel for `Background`, the
    highlight colour for `Rect`, the body colour for `Text`). */
module Instructions {

  datatype Instr =
    | Background                                       // page fill and rounded panel, app.py:137-145
    | SetFont(name: string, size: real)                // app.py:148
    | Rect(x: real, y: real, width: real, height: real) // first-letter highlight, app.py:200-201
    | Text(x: real, y: real, s: string)                // drawString at baseline y, app.py:203-206
    | ShowPage                                         // finish the current page, app.py:168, 187, 210

  /** The instructions that open every page: background, then font. */
  function PageHeader(font: string, size: real): seq<Instr> {
    [Background, SetFont(font, size)]
  }

  /** The leading run of `Text` instructions, glued together, and what
      follows it. */
  function TakeTexts(s: seq<Instr>): (r: (string, seq<Instr>))
    ensures |r.1| <= |s| && r.1 == s[|s| - |r.1|..]
    ensures r.1 == [] || !r.1[0].Text?
    decreases |s|
  {
    if s != [] && s[0].Text? then
      var (t, rest) := TakeTexts(s[1..]);
      (s[0].s + t, rest)
    else ([], s)
  }

  /** The words a reader sees: each highlight rectangle opens a word, and the
      texts drawn after it, up to the next non-text instruction, spell it. */
  function WordsDrawn(s: seq<Instr>): seq<string>
    decreases |s|
  {
    if s == [] then []
    else if s[0].Rect? then
      var r := TakeTexts(s[1..]);
      [r.0] + WordsDrawn(r.1)
    else WordsDrawn(s[1..])
  }

  /** A stream that cannot extend a word begun before it. */
  predicate NoLeadingText(s: seq<Instr>) {
    s == [] || !s[0].Text?
  }

  lemma {:induction false} TakeTextsAppend(a: seq<Instr>, b: seq<Instr>)
    requires NoLeadingText(b)
    ensures TakeTexts(a + b) == (TakeTexts(a).0, TakeTexts(a).1 + b)
    decreases |a|
  {
    if a == [] {
      assert a + b == b;
    } else {
      assert (a + b)[0] == a[0];
      assert (a + b)[1..] == a[1..] + b;
      if a[0].Text? {
        TakeTextsAppend(a[1..], b);
      }
    }
  }

  /** Reading words back is compositional when the second stream does not
      continue a word of the first. */
  lemma {:induction false} WordsDrawnAppend(a: seq<Instr>, b: seq<Instr>)
    requires NoLeadingText(b)
    ensures WordsDrawn(a + b) == WordsDrawn(a) + WordsDrawn(b)
    decreases |a|
  {
    if a == [] {
      assert a + b == b;
    } else if a[0].Rect? {
      var r := TakeTexts(a[1..]);
      assert WordsDrawn(a + b) == [r.0] + WordsDrawn(r.1 + b) by {
        assert (a + b)[0] == a[0];
        assert (a + b)[1..] == a[1..] + b;
        TakeTextsAppend(a[1..], b);
      }
      WordsDrawnAppend(r.1, b);
    } else {
      assert WordsDrawn(a + b) == WordsDrawn(a[1..] + b) by {
        assert (a + b)[0] == a[0];
        assert (a + b)[1..] == a[1..] + b;
      }
      WordsDrawnAppend(a[1..], b);
    }
  }

  lemma WordsDrawnNoRect(s: seq<Instr>)
    requires forall i :: 0 <= i < |s| ==> !s[i].Rect?
    ensures WordsDrawn(s) == []
  {
    if s != [] {
      WordsDrawnNoRect(s[1..]);
    }
  }

  function CountPages(s: seq<Instr>): nat {
    if s == [] then 0 else (if s[0] == ShowPage then 1 else 0) + CountPages(s[1..])
  }

  lemma CountPagesNone(s: seq<Instr>)
    requires forall i :: 0 <= i < |s| ==> s[i] != ShowPage
    ensures CountPages(s) == 0
  {
  }

  lemma CountPagesAppend(a: seq<Instr>, b: seq<Instr>)
    ensures CountPages(a + b) == CountPages(a) + CountPages(b)
  {
    if a == [] {
      assert a + b == b;
    } else {
      assert (a + b)[0] == a[0];
      assert (a + b)[1..] == a[1..] + b;
      CountPagesAppend(a[1..], b);
    }
  }

  /** Every page break inside the stream is followed at once by a fresh
      page header for the given font. */
  predicate BreaksOpenPages(s: seq<Instr>, font: string, size: real) {
    forall i :: 0 <= i < |s| && s[i] == ShowPage ==>
      i + 2 < |s| && s[i + 1] == Background && s[i + 2] == SetFont(font, size)
  }

  lemma BreaksOpenPagesAppend(a: seq<Instr>, b: seq<Instr>, font: string, size: real)
    requires BreaksOpenPages(a, font, size) && BreaksOpenPages(b, font, size)
    ensures BreaksOpenPages(a + b, font, size)
  {
    var s := a + b;
    forall i | 0 <= i < |s| && s[i] == ShowPage
      ensures i + 2 < |s| && s[i + 1] == Background && s[i + 2] == SetFont(font, size)
    {
      if i < |a| {
        assert a[i] == ShowPage;
        assert s[i + 1] == a[i + 1] && s[i + 2] == a[i + 2];
      } else {
        assert b[i - |a|] == ShowPage;
        assert s[i + 1] == b[i - |a| + 1] && s[i + 2] == b[i - |a| + 2];
      }
    }
  }
}
