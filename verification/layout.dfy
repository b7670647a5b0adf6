/** The layout loop of the PDF builder (app.py:120-214) as a fold over the
    token sequence. The cursor carries the pen position and the page number;
    each token turns into the drawing instructions it causes. Page geometry
    is a record of reals and the font's metrics are a record holding a width
    function and the ascent and descent at the document's one font size. */
module Layout {
  import opened Tokenizer
  import opened Instructions

  /** One millimetre in PDF points. */
  const Mm: real := 72.0 / 25.4

  /** Page size, margin and type settings (app.py:123-132). */
  datatype Geometry = Geometry(pageWidth: real, pageHeight: real, margin: real,
                               fontSize: real, wordSpacing: real, lineSpacing: real)
  {
    function MaxWidth(): real { pageWidth - 2.0 * margin }
    function XStart(): real { margin }
    function YStart(): real { pageHeight - margin }
    /** Right end of the writing area. */
    function RightEdge(): real { margin + MaxWidth() }
    /** Baseline of the first line of every page. */
    function Top(): real { YStart() - fontSize }
    /** Lowest baseline a line may use before the page is finished. */
    function Floor(): real { margin + fontSize }
    /** Drop after an end-of-line marker: one line plus the paragraph gap. */
    function ParagraphDrop(): real { lineSpacing + fontSize * 0.4 }

    /** Positive type sizes, and a page tall enough for its first line to
        sit above the lowest allowed baseline. */
    predicate Valid() {
      fontSize > 0.0 && wordSpacing >= 0.0 && lineSpacing > 0.0 && Floor() <= Top()
    }
  }

  /** The document's settings: A4, 20 mm margins, 22 pt type, 10 pt word
      spacing, line spacing 1.8 times the type size. */
  const A4Page: Geometry := Geometry(210.0 * Mm, 297.0 * Mm, 20.0 * Mm, 22.0, 10.0, 22.0 * 1.8)

  /** The selected font at the document's size: its name, the width of a
      string, its ascent and its descent (which may be reported negative). */
  datatype Font = Font(name: string, width: string -> real, ascent: real, descent: real)
  {
    /** Depth below the baseline, `abs(getDescent(...))`. */
    function Depth(): real { if descent < 0.0 then -descent else descent }

    ghost predicate Valid() { ascent >= 0.0 && forall s :: width(s) >= 0.0 }
  }

  /** Pen position (baseline at `y`) and the number of pages finished so far. */
  datatype Cursor = Cursor(x: real, y: real, page: nat)

  function Start(g: Geometry): Cursor {
    Cursor(g.XStart(), g.Top(), 0)
  }

  function Header(g: Geometry, f: Font): seq<Instr> {
    PageHeader(f.name, g.fontSize)
  }

  /** The overflow check that follows every change of line: below the lowest
      baseline, finish the page and continue at the top of a fresh one. */
  function BreakIfLow(g: Geometry, f: Font, c: Cursor): (Cursor, seq<Instr>) {
    if c.y < g.Floor() then (Cursor(c.x, g.Top(), c.page + 1), [ShowPage] + Header(g, f))
    else (c, [])
  }

  /** An end-of-line marker (app.py:164-172): back to the left margin and
      down one line plus the paragraph gap; a page break when that passes the
      lowest baseline. */
  function NewLine(g: Geometry, f: Font, c: Cursor): (r: (Cursor, seq<Instr>))
    ensures r.0.x == g.XStart()
    ensures c.y - g.ParagraphDrop() >= g.Floor() ==>
              r.0 == Cursor(g.XStart(), c.y - g.ParagraphDrop(), c.page) && r.1 == []
    ensures c.y - g.ParagraphDrop() < g.Floor() ==>
              r.0 == Cursor(g.XStart(), g.Top(), c.page + 1) && r.1 == [ShowPage] + Header(g, f)
  {
    BreakIfLow(g, f, Cursor(g.XStart(), c.y - g.ParagraphDrop(), c.page))
  }

  /** Horizontal room a word takes: its width plus the word spacing. */
  function Advance(g: Geometry, f: Font, w: string): real {
    f.width(w) + g.wordSpacing
  }

  /** The width check before a word (app.py:181-190): when the word and the
      spacing after it would pass the right edge, back to the left margin and
      down by the line spacing only (no paragraph gap), with the same page
      overflow check. Afterwards the word either fits or starts at the left
      margin. */
  function SoftWrap(g: Geometry, f: Font, c: Cursor, w: string): (r: (Cursor, seq<Instr>))
    ensures c.x + Advance(g, f, w) <= g.RightEdge() ==> r.0 == c && r.1 == []
    ensures c.x + Advance(g, f, w) > g.RightEdge() && c.y - g.lineSpacing >= g.Floor() ==>
              r.0 == Cursor(g.XStart(), c.y - g.lineSpacing, c.page) && r.1 == []
    ensures c.x + Advance(g, f, w) > g.RightEdge() && c.y - g.lineSpacing < g.Floor() ==>
              r.0 == Cursor(g.XStart(), g.Top(), c.page + 1) && r.1 == [ShowPage] + Header(g, f)
    ensures r.0.x == g.XStart() || r.0.x + Advance(g, f, w) <= g.RightEdge()
  {
    if c.x + Advance(g, f, w) > g.RightEdge() then
      BreakIfLow(g, f, Cursor(g.XStart(), c.y - g.lineSpacing, c.page))
    else (c, [])
  }

  /** The highlight box behind a word's first letter (app.py:193-201): it
      reaches 2 pt past the letter on each side, and from the descent line
      up to 2 pt above the ascent. */
  function Highlight(f: Font, c: Cursor, w: string): (box: Instr)
    requires w != []
    ensures box.Rect?
    ensures box.x + 2.0 == c.x && box.x + box.width == c.x + f.width(w[..1]) + 2.0
    ensures box.y == c.y - f.Depth() && box.y + box.height == c.y + f.ascent + 2.0
  {
    Rect(c.x - 2.0, c.y - f.Depth(), f.width(w[..1]) + 4.0, f.ascent + f.Depth() + 2.0)
  }

  /** The texts of a word (app.py:203-206): the first letter at the pen, then
      the rest of the word, if any, right after the first letter's width, on
      the pen's baseline; together they spell the word. */
  function Letters(f: Font, c: Cursor, w: string): (ts: seq<Instr>)
    requires w != []
    ensures |ts| == if |w| > 1 then 2 else 1
    ensures forall i :: 0 <= i < |ts| ==> ts[i].Text? && ts[i].y == c.y
    ensures ts[0].x == c.x && ts[0].s == w[..1]
    ensures |w| > 1 ==> ts[1].x == c.x + f.width(w[..1]) && ts[1].s == w[1..]
    ensures TakeTexts(ts) == (w, [])
  {
    var first := Text(c.x, c.y, w[..1]);
    if |w| > 1 then
      var ts := [first, Text(c.x + f.width(w[..1]), c.y, w[1..])];
      assert TakeTexts(ts[1..]) == (w[1..] + [], []);
      assert w[..1] + (w[1..] + []) == w;
      ts
    else
      assert TakeTexts([first][1..]) == ([], []);
      assert w[..1] + [] == w;
      [first]
  }

  /** The drawing of one word at the cursor (app.py:192-206): the highlight
      box, then the texts; read back, they spell the word. */
  function Glyphs(f: Font, c: Cursor, w: string): (r: seq<Instr>)
    requires w != []
    ensures |r| == if |w| > 1 then 3 else 2
    ensures WordsDrawn(r) == [w]
    ensures r[0] == Highlight(f, c, w) && r[1..] == Letters(f, c, w)
  {
    var r := [Highlight(f, c, w)] + Letters(f, c, w);
    assert r[1..] == Letters(f, c, w);
    assert WordsDrawn(r[1..][|r| - 1..]) == [];
    r
  }

  /** A word token (app.py:174-208): nothing for an empty word; otherwise the
      width check, the word's drawing, and the pen moved on by the word's
      width plus the word spacing. */
  function PlaceWord(g: Geometry, f: Font, c: Cursor, w: string): (Cursor, seq<Instr>) {
    if w == [] then (c, [])
    else
      var wrapped := SoftWrap(g, f, c, w);
      var at := wrapped.0;
      (Cursor(at.x + Advance(g, f, w), at.y, at.page), wrapped.1 + Glyphs(f, at, w))
  }

  function Step(g: Geometry, f: Font, c: Cursor, t: Token): (Cursor, seq<Instr>) {
    match t
    case Newline => NewLine(g, f, c)
    case Word(w) => PlaceWord(g, f, c, w)
  }

  /** The loop over the tokens (app.py:163-208), left to right. */
  function Run(g: Geometry, f: Font, c: Cursor, toks: seq<Token>): (Cursor, seq<Instr>)
    decreases |toks|
  {
    if toks == [] then (c, [])
    else
      var s := Step(g, f, c, toks[0]);
      var r := Run(g, f, s.0, toks[1..]);
      (r.0, s.1 + r.1)
  }

  /** The whole document: the first page's header, the tokens' drawing, and
      the final page finish (app.py:147-148, 160-161, 210). */
  function Render(g: Geometry, f: Font, toks: seq<Token>): seq<Instr> {
    Header(g, f) + Run(g, f, Start(g), toks).1 + [ShowPage]
  }

  /** `create_dyslexia_pdf` up to the PDF bytes. */
  function RenderText(g: Geometry, f: Font, text: string): seq<Instr> {
    Render(g, f, Tokenize(text))
  }
}
