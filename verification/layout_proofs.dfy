/** What the layout loop guarantees about the instruction stream it produces:
    every word drawn once and in order, pages counted and opened properly,
    every baseline inside the page, and the wrapping and pagination rules. */
module LayoutProofs {
  import opened Tokenizer
  import opened Instructions
  import opened Layout

  /** The pen is between the lowest allowed baseline and the first baseline
      of a page, and not left of the margin. */
  predicate OnPage(g: Geometry, c: Cursor) {
    g.Floor() <= c.y <= g.Top() && g.XStart() <= c.x
  }

  /** Every text and every highlight has its baseline between the lowest
      allowed one and the first line of the page, and no text starts left of
      the margin. The glyphs and the box themselves reach below and above
      their baseline by the font's descent and ascent. */
  predicate InBand(g: Geometry, f: Font, s: seq<Instr>) {
    forall i :: 0 <= i < |s| ==>
      && (s[i].Text? ==> g.Floor() <= s[i].y <= g.Top() && g.XStart() <= s[i].x)
      && (s[i].Rect? ==> g.Floor() <= s[i].y + f.Depth() <= g.Top())
  }

  lemma InBandAppend(g: Geometry, f: Font, a: seq<Instr>, b: seq<Instr>)
    requires InBand(g, f, a) && InBand(g, f, b)
    ensures InBand(g, f, a + b)
  {
    forall i | 0 <= i < |a + b|
      ensures ((a + b)[i].Text? ==> g.Floor() <= (a + b)[i].y <= g.Top() && g.XStart() <= (a + b)[i].x)
      ensures ((a + b)[i].Rect? ==> g.Floor() <= (a + b)[i].y + f.Depth() <= g.Top())
    {
      if i < |a| { assert (a + b)[i] == a[i]; } else { assert (a + b)[i] == b[i - |a|]; }
    }
  }

  function Newlines(k: nat): seq<Token> {
    seq(k, _ => Newline)
  }

  // ------------------------------------------------------------ the stream

  /** One token's contribution: page breaks counted by the cursor and each
      followed by a fresh header, nothing that could extend an earlier word,
      and exactly the token's word, if it has a non-empty one. */
  lemma StepStream(g: Geometry, f: Font, c: Cursor, t: Token)
    ensures var r := Step(g, f, c, t);
            && r.0.page >= c.page && CountPages(r.1) == r.0.page - c.page
            && BreaksOpenPages(r.1, f.name, g.fontSize) && NoLeadingText(r.1)
            && WordsDrawn(r.1) == PlacedWords([t])
  {
    match t
    case Newline =>
      assert PlacedWords([t]) == [];
      BreakStream(g, f, Cursor(g.XStart(), c.y - g.ParagraphDrop(), c.page));
    case Word(w) =>
      if w == [] {
        assert PlacedWords([t]) == [];
      } else {
        assert PlacedWords([t]) == [w];
        WordStream(g, f, c, w);
      }
  }

  /** The overflow check emits nothing, or one page break with its header. */
  lemma BreakStream(g: Geometry, f: Font, c: Cursor)
    ensures var r := BreakIfLow(g, f, c);
            && r.0.page >= c.page && CountPages(r.1) == r.0.page - c.page
            && BreaksOpenPages(r.1, f.name, g.fontSize) && NoLeadingText(r.1)
            && WordsDrawn(r.1) == []
  {
    PageBreakStream(g, f);
  }

  lemma WordStream(g: Geometry, f: Font, c: Cursor, w: string)
    requires w != []
    ensures var r := PlaceWord(g, f, c, w);
            && r.0.page >= c.page && CountPages(r.1) == r.0.page - c.page
            && BreaksOpenPages(r.1, f.name, g.fontSize) && NoLeadingText(r.1)
            && WordsDrawn(r.1) == [w]
  {
    var wrapped := SoftWrap(g, f, c, w);
    var glyphs := Glyphs(f, wrapped.0, w);
    assert wrapped == BreakIfLow(g, f, Cursor(g.XStart(), c.y - g.lineSpacing, c.page)) || wrapped == (c, []);
    BreakStream(g, f, Cursor(g.XStart(), c.y - g.lineSpacing, c.page));
    assert CountPages(glyphs) == 0 && BreaksOpenPages(glyphs, f.name, g.fontSize) by {
      CountPagesNone(glyphs);
    }
    WordsDrawnAppend(wrapped.1, glyphs);
    CountPagesAppend(wrapped.1, glyphs);
    BreaksOpenPagesAppend(wrapped.1, glyphs, f.name, g.fontSize);
  }

  /** A page header draws no word and finishes no page. */
  lemma HeaderStream(g: Geometry, f: Font)
    ensures WordsDrawn(Header(g, f)) == [] && CountPages(Header(g, f)) == 0
    ensures BreaksOpenPages(Header(g, f), f.name, g.fontSize)
  {
    WordsDrawnNoRect(Header(g, f));
    CountPagesNone(Header(g, f));
  }

  lemma PageBreakStream(g: Geometry, f: Font)
    ensures var brk := [ShowPage] + Header(g, f);
            CountPages(brk) == 1 && WordsDrawn(brk) == [] && BreaksOpenPages(brk, f.name, g.fontSize)
  {
    var brk := [ShowPage] + Header(g, f);
    HeaderStream(g, f);
    WordsDrawnNoRect(brk);
    CountPagesAppend([ShowPage], Header(g, f));
  }

  /** The whole loop: the pages it finishes are the pages the cursor counts,
      each break is followed by a fresh header, and the words drawn are the
      non-empty word tokens, each once, in token order. */
  lemma {:induction false} RunStream(g: Geometry, f: Font, c: Cursor, toks: seq<Token>)
    ensures var r := Run(g, f, c, toks);
            && r.0.page >= c.page && CountPages(r.1) == r.0.page - c.page
            && BreaksOpenPages(r.1, f.name, g.fontSize) && NoLeadingText(r.1)
            && WordsDrawn(r.1) == PlacedWords(toks)
    decreases |toks|
  {
    if toks != [] {
      var s := Step(g, f, c, toks[0]);
      var r := Run(g, f, s.0, toks[1..]);
      assert Run(g, f, c, toks) == (r.0, s.1 + r.1);
      StepStream(g, f, c, toks[0]);
      RunStream(g, f, s.0, toks[1..]);
      assert CountPages(s.1 + r.1) == r.0.page - c.page by {
        CountPagesAppend(s.1, r.1);
      }
      assert BreaksOpenPages(s.1 + r.1, f.name, g.fontSize) by {
        BreaksOpenPagesAppend(s.1, r.1, f.name, g.fontSize);
      }
      assert WordsDrawn(s.1 + r.1) == PlacedWords(toks) by {
        WordsDrawnAppend(s.1, r.1);
        assert toks == [toks[0]] + toks[1..];
        PlacedWordsAppend([toks[0]], toks[1..]);
      }
      assert NoLeadingText(s.1 + r.1) by {
        assert s.1 != [] ==> (s.1 + r.1)[0] == s.1[0];
        assert s.1 == [] ==> s.1 + r.1 == r.1;
      }
    }
  }

  /** Every word is drawn exactly once, whole, in source order: read back
      from the document (a highlight box opens a word, the texts after it
      spell it), the words are the non-empty word tokens. */
  lemma RenderDrawsEveryWord(g: Geometry, f: Font, toks: seq<Token>)
    ensures WordsDrawn(Render(g, f, toks)) == PlacedWords(toks)
  {
    var out := Run(g, f, Start(g), toks).1;
    RunStream(g, f, Start(g), toks);
    HeaderStream(g, f);
    assert NoLeadingText([ShowPage]);
    WordsDrawnAppend(Header(g, f), out);
    WordsDrawnAppend(Header(g, f) + out, [ShowPage]);
    assert WordsDrawn([ShowPage]) == [];
  }

  /** The document opens with the page header and closes with a page finish;
      it has one page more than the breaks the loop took, so at least one;
      and every page finish before the last is followed by a fresh header. */
  lemma RenderPages(g: Geometry, f: Font, toks: seq<Token>)
    ensures var doc := Render(g, f, toks);
            && |doc| >= 3 && doc[..2] == Header(g, f) && doc[|doc| - 1] == ShowPage
            && CountPages(doc) == Run(g, f, Start(g), toks).0.page + 1
            && BreaksOpenPages(doc[..|doc| - 1], f.name, g.fontSize)
  {
    var out := Run(g, f, Start(g), toks).1;
    var doc := Render(g, f, toks);
    RunStream(g, f, Start(g), toks);
    HeaderStream(g, f);
    assert CountPages(doc) == CountPages(out) + 1 by {
      CountPagesAppend(Header(g, f), out);
      CountPagesAppend(Header(g, f) + out, [ShowPage]);
    }
    assert doc[..|doc| - 1] == Header(g, f) + out;
    BreaksOpenPagesAppend(Header(g, f), out, f.name, g.fontSize);
  }

  // ------------------------------------------------------------ the page band

  /** One token keeps the pen on the page, draws only on baselines inside
      the band, and moves the pen down or to a new page, never up on the
      same page; an end-of-line marker always moves it down or to a new
      page. */
  lemma StepStaysOnPage(g: Geometry, f: Font, c: Cursor, t: Token)
    requires g.Valid() && f.Valid() && OnPage(g, c)
    ensures var r := Step(g, f, c, t);
            && OnPage(g, r.0) && InBand(g, f, r.1)
            && (r.0.page == c.page ==> r.0.y <= c.y)
            && (t.Newline? && r.0.page == c.page ==> r.0.y < c.y)
  {
    var brk := [ShowPage] + Header(g, f);
    assert InBand(g, f, brk);
    match t
    case Newline =>
    case Word(w) =>
      if w != [] {
        var wrapped := SoftWrap(g, f, c, w);
        var at := wrapped.0;
        var glyphs := Glyphs(f, at, w);
        assert f.width(w[..1]) >= 0.0 && f.width(w) >= 0.0;
        assert OnPage(g, at);
        assert InBand(g, f, glyphs);
        InBandAppend(g, f, wrapped.1, glyphs);
      }
  }

  /** The pagination invariant over the whole loop. */
  lemma {:induction false} RunStaysOnPage(g: Geometry, f: Font, c: Cursor, toks: seq<Token>)
    requires g.Valid() && f.Valid() && OnPage(g, c)
    ensures OnPage(g, Run(g, f, c, toks).0) && InBand(g, f, Run(g, f, c, toks).1)
    decreases |toks|
  {
    if toks != [] {
      var s := Step(g, f, c, toks[0]);
      StepStaysOnPage(g, f, c, toks[0]);
      RunStaysOnPage(g, f, s.0, toks[1..]);
      InBandAppend(g, f, s.1, Run(g, f, s.0, toks[1..]).1);
    }
  }

  /** Every text and highlight of the document has its baseline between the
      lowest allowed baseline and the first line of a page, and no text
      starts left of the margin, provided the page can hold its first line. */
  lemma RenderStaysOnPage(g: Geometry, f: Font, toks: seq<Token>)
    requires g.Valid() && f.Valid()
    ensures InBand(g, f, Render(g, f, toks))
  {
    RunStaysOnPage(g, f, Start(g), toks);
    var out := Run(g, f, Start(g), toks).1;
    assert InBand(g, f, Header(g, f)) && InBand(g, f, [ShowPage]);
    InBandAppend(g, f, Header(g, f), out);
    InBandAppend(g, f, Header(g, f) + out, [ShowPage]);
  }

  /** The document's own settings satisfy the geometry requirement. */
  lemma A4PageValid()
    ensures A4Page.Valid()
  {
  }

  // ------------------------------------------------------------ wrapping

  /** A word no wider than the writing area (spacing included) always ends
      inside it: if it does not fit where the pen is, it moves to the left
      margin, where it does. */
  lemma NarrowWordFits(g: Geometry, f: Font, c: Cursor, w: string)
    requires Advance(g, f, w) <= g.MaxWidth()
    ensures SoftWrap(g, f, c, w).0.x + Advance(g, f, w) <= g.RightEdge()
  {
  }

  /** Placing a non-empty word: where it fits, it is drawn at the pen;
      otherwise at the left margin one line lower, or at the top of a fresh
      page. In every case the pen then moves right by exactly the word's
      width plus the word spacing, on the baseline the word was drawn on. */
  lemma PlaceWordCases(g: Geometry, f: Font, c: Cursor, w: string)
    requires w != []
    ensures var r := PlaceWord(g, f, c, w);
            var adv := f.width(w) + g.wordSpacing;
            && (c.x + adv <= g.RightEdge() ==>
                  r == (Cursor(c.x + adv, c.y, c.page), Glyphs(f, c, w)))
            && (c.x + adv > g.RightEdge() && c.y - g.lineSpacing >= g.Floor() ==>
                  var at := Cursor(g.XStart(), c.y - g.lineSpacing, c.page);
                  r == (Cursor(g.XStart() + adv, at.y, c.page), Glyphs(f, at, w)))
            && (c.x + adv > g.RightEdge() && c.y - g.lineSpacing < g.Floor() ==>
                  var at := Cursor(g.XStart(), g.Top(), c.page + 1);
                  r == (Cursor(g.XStart() + adv, g.Top(), c.page + 1), [ShowPage] + Header(g, f) + Glyphs(f, at, w)))
  {
    var adv := f.width(w) + g.wordSpacing;
    var wrapped := SoftWrap(g, f, c, w);
    var at := wrapped.0;
    assert PlaceWord(g, f, c, w) == (Cursor(at.x + adv, at.y, at.page), wrapped.1 + Glyphs(f, at, w));
    if c.x + adv <= g.RightEdge() {
      assert wrapped == (c, []);
      assert [] + Glyphs(f, c, w) == Glyphs(f, c, w);
    } else if c.y - g.lineSpacing >= g.Floor() {
      assert wrapped == (Cursor(g.XStart(), c.y - g.lineSpacing, c.page), []);
      assert [] + Glyphs(f, at, w) == Glyphs(f, at, w);
    } else {
      assert wrapped == (Cursor(g.XStart(), g.Top(), c.page + 1), [ShowPage] + Header(g, f));
    }
  }

  /** A word wider than the writing area is never split: it is drawn whole at
      the left margin. Even when the pen is already at the left margin the
      width check fires, so such a word always costs a line change (or a page
      break) first. */
  lemma WideWordStartsNewLine(g: Geometry, f: Font, c: Cursor, w: string)
    requires w != [] && Advance(g, f, w) > g.MaxWidth() && g.XStart() <= c.x
    ensures var r := PlaceWord(g, f, c, w);
            var at := SoftWrap(g, f, c, w).0;
            && at.x == g.XStart()
            && (at.y == c.y - g.lineSpacing || at.page == c.page + 1)
            && WordsDrawn(r.1) == [w]
  {
    var wrapped := SoftWrap(g, f, c, w);
    StepStream(g, f, c, Word(w));
    assert PlacedWords([Word(w)]) == [w];
  }

  // ------------------------------------------------------------ composition and blank lines

  /** The fold unfolded once at the front. */
  lemma RunCons(g: Geometry, f: Font, c: Cursor, t: Token, rest: seq<Token>)
    ensures var s := Step(g, f, c, t);
            var r := Run(g, f, s.0, rest);
            Run(g, f, c, [t] + rest) == (r.0, s.1 + r.1)
  {
    assert ([t] + rest)[0] == t;
    assert ([t] + rest)[1..] == rest;
  }

  /** `k` drops of `d` are one drop more than `k1 = k - 1` of them. */
  lemma Drops(k: nat, k1: nat, d: real)
    requires k == k1 + 1 && d > 0.0
    ensures (k as real) * d == (k1 as real) * d + d
    ensures (k1 as real) * d >= 0.0
    ensures k1 == 0 ==> (k as real) * d == d
  {
  }

  /** Consecutive end-of-line markers that stay above the lowest baseline
      draw nothing and lower the pen by one paragraph drop each. */
  lemma {:induction false} BlankLinesStayOnPage(g: Geometry, f: Font, c: Cursor, k: nat)
    requires g.Valid() && k >= 1
    requires c.y - (k as real) * g.ParagraphDrop() >= g.Floor()
    ensures Run(g, f, c, Newlines(k)) == (Cursor(g.XStart(), c.y - (k as real) * g.ParagraphDrop(), c.page), [])
    decreases k
  {
    var k1: nat := k - 1;
    var y := c.y - (k as real) * g.ParagraphDrop();
    var c1 := Cursor(g.XStart(), c.y - g.ParagraphDrop(), c.page);
    Drops(k, k1, g.ParagraphDrop());
    var rest := Run(g, f, c1, Newlines(k1));
    assert Run(g, f, c, Newlines(k)) == (rest.0, [] + rest.1) by {
      assert Step(g, f, c, Newline) == (c1, []);
      assert Newlines(k) == [Newline] + Newlines(k1);
      RunCons(g, f, c, Newline, Newlines(k1));
    }
    var target := Cursor(g.XStart(), y, c.page);
    if k1 == 0 {
      assert c1 == target;
      assert rest == (c1, []) by {
        assert Newlines(k1) == [];
      }
    } else {
      assert c1.y - (k1 as real) * g.ParagraphDrop() == y;
      BlankLinesStayOnPage(g, f, c1, k1);
      assert rest == (target, []);
    }
    assert [] + rest.1 == rest.1;
  }

  /** Consecutive end-of-line markers whose last one passes the lowest
      baseline draw nothing but one page break, and leave the pen at the top
      of the next page. */
  lemma {:induction false} BlankLinesThenBreak(g: Geometry, f: Font, c: Cursor, k: nat, k1: nat)
    requires g.Valid() && k == k1 + 1
    requires c.y - (k1 as real) * g.ParagraphDrop() >= g.Floor()
    requires c.y - (k as real) * g.ParagraphDrop() < g.Floor()
    ensures Run(g, f, c, Newlines(k)) == (Cursor(g.XStart(), g.Top(), c.page + 1), [ShowPage] + Header(g, f))
    decreases k
  {
    Drops(k, k1, g.ParagraphDrop());
    var s := Step(g, f, c, Newline);
    var rest := Run(g, f, s.0, Newlines(k1));
    assert Run(g, f, c, Newlines(k)) == (rest.0, s.1 + rest.1) by {
      assert Newlines(k) == [Newline] + Newlines(k1);
      RunCons(g, f, c, Newline, Newlines(k1));
    }
    if k1 == 0 {
      assert rest == (s.0, []) by {
        assert Newlines(k1) == [];
      }
      assert s.1 + [] == s.1;
    } else {
      var k2: nat := k1 - 1;
      var c1 := Cursor(g.XStart(), c.y - g.ParagraphDrop(), c.page);
      Drops(k1, k2, g.ParagraphDrop());
      assert s == (c1, []);
      assert c1.y - (k2 as real) * g.ParagraphDrop() == c.y - (k1 as real) * g.ParagraphDrop();
      assert c1.y - (k1 as real) * g.ParagraphDrop() == c.y - (k as real) * g.ParagraphDrop();
      BlankLinesThenBreak(g, f, c1, k1, k2);
      assert [] + rest.1 == rest.1;
    }
  }

  /** A text without a single word can still fill pages: on the A4 settings,
      fourteen end-of-line markers fit on the first page and a fifteenth
      starts a second one. */
  lemma BlankLinesFillA4Page(f: Font)
    ensures CountPages(Render(A4Page, f, Newlines(14))) == 1
    ensures CountPages(Render(A4Page, f, Newlines(15))) == 2
  {
    var g := A4Page;
    BlankLinesStayOnPage(g, f, Start(g), 14);
    BlankLinesThenBreak(g, f, Start(g), 15, 14);
    RenderPages(g, f, Newlines(14));
    RenderPages(g, f, Newlines(15));
  }
}
