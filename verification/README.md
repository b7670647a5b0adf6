# redoku: the dyslexia-friendly PDF builder, in Dafny

redoku is a small web application. It takes a text and an optional contact address and returns a PDF. In the PDF every word is drawn in a large font, the first letter of each word sits on a highlight box, and lines and pages are broken automatically. Addresses that pass a simple check are kept in a subscriber table, together with the number of documents generated with them.

This project models the logic of that application as pure Dafny functions and proves what the layout promises.

- **Text** (`text.dfy`): the string primitives the handler uses. These are `strip()`, `lower()`, `splitlines()` and `split()` with no separator, on `seq<char>`.
- **Tokenizer** (`tokenizer.dfy`): the text becomes a sequence of tokens, each a word or an end-of-line marker.
- **Instructions** (`instructions.dfy`): the canvas calls become data, the instructions `Background`, `SetFont`, `Rect`, `Text` and `ShowPage`. Three projections read an instruction stream back:
  - the words a reader sees;
  - the number of pages;
  - how each page begins.
- **Layout** (`layout.dfy`): the layout loop as a fold over the tokens. It carries a cursor `(x, y, page)` and emits instructions.
  - Geometry is `real`.
  - The font is a record holding a width function, an ascent and a descent.
  - The page settings are a record, and `A4Page` is the document's instance of it.
- **LayoutProofs** (`layout_proofs.dfy`): what the loop guarantees:
  - every word is drawn once, whole and in order;
  - the pages are counted and every page is opened properly;
  - every baseline stays inside the page band;
  - the wrapping and pagination rules.
- **Subscribers** (`subscribers.dfy`): address normalisation, the validity check, and the subscriber store as a `map<string, nat>` from address to count.
- **Fonts** (`fonts.dfy`): the start-up font selection, over abstract probe results.
- **Generate** (`generate.dfy`): the decisions of the `/generate` handler.
  - A blank text is rejected.
  - A valid address is recorded.
  - The stripped text is laid out.

## Model

| member | source | states |
|---|---|---|
| Text.Strip | app.py:43-44 | `strip()` gives the empty string exactly when the input is blank; otherwise neither end of the result is whitespace |
| Text.StripIsSlice | app.py:43 | the stripped text is a slice of the input, with only whitespace before it and after it |
| Text.StripKeepsText | app.py:43 | stripping loses no non-whitespace character |
| Text.Lower | app.py:44 | `lower()` keeps the length; it maps every upper-case letter to its lower-case partner and leaves every other character alone |
| Text.SplitLines | app.py:152 | no line holds a line feed; ending each line with one gives back the text, with a final line feed added if it was missing |
| Text.SplitJoinLines | app.py:152 | round trip: lines without line feeds, joined and then split, come back unchanged |
| Text.SplitWords | app.py:156 | every word is non-empty and free of whitespace; there is no word exactly when the line is blank |
| Text.SplitWordsMaximal | app.py:156 | the line is its words woven with blank separators, and every separator between two words is non-empty: the words are exactly the maximal non-whitespace runs |
| Text.SplitWordsBlankSuffix | app.py:156 | whitespace at the end of a line adds no word |
| Text.SplitWordsKeepsText | app.py:156 | the words, glued together, are the line's non-whitespace characters in their original order |
| Text.SplitJoinWords | app.py:156 | round trip: whitespace-free words, joined with spaces and then split, come back unchanged |
| Tokenizer.TokenizeLineShape | app.py:152-158 | every line yields its words and then exactly one end-of-line marker; a line yields only the marker exactly when it is blank |
| Tokenizer.TokenizeLinesFacts | app.py:151-158 | there is one end-of-line marker per line; the words come line by line in order; no word token is empty, so the empty-word guard never fires |
| Tokenizer.TokenizeKeepsText | app.py:150-158 | the word tokens, glued together, are exactly the text's non-whitespace characters; the number of end-of-line markers equals the number of lines |
| Tokenizer.CrLfLineEnds | app.py:150-158 | a text whose lines end in "\r\n" gives the same tokens as the same lines ended by "\n" |
| Tokenizer.NoWordsIffBlank | app.py:150-158 | a text yields no word token exactly when it is blank |
| Layout.NewLine | app.py:164-172 | an end-of-line marker returns x to the margin and lowers y by line spacing plus 0.4 times the font size; below the lowest baseline it finishes the page, emits a fresh header and restarts at the top |
| Layout.SoftWrap | app.py:181-190 | a word that would pass the right edge moves to the margin one line spacing lower (no paragraph gap), with the same page-break check; afterwards the word fits or starts at the margin |
| Layout.Highlight | app.py:193-201 | the highlight box spans from 2 pt left of the first letter to 2 pt right of it, and from the descent line (the absolute value of the reported descent below the baseline) to 2 pt above the ascent |
| Layout.Letters | app.py:203-206 | the first letter is drawn at the pen; the rest of the word, if any, is drawn after the first letter's width; all on the pen's baseline; read back, the texts spell the word |
| Layout.Glyphs | app.py:192-206 | a word draws exactly the highlight box and then its texts, two or three instructions; read back, the drawing is exactly the word |
| LayoutProofs.PlaceWordCases | app.py:174-208 | a non-empty word is drawn at the pen, at the margin one line lower, or at the top of a new page; the pen then advances by exactly the word width plus the word spacing |
| LayoutProofs.StepStream | app.py:163-208 | one token finishes as many pages as the cursor's page count grows by, opens every new page with a header, and draws exactly its own word |
| LayoutProofs.RunStream | app.py:163-208 | over the whole loop, pages finished equal the cursor's page count, every break is followed by a header, and the words drawn are the word tokens in order |
| LayoutProofs.RenderDrawsEveryWord | app.py:147-210 | reading the document back gives exactly the non-empty word tokens, each once, in order |
| LayoutProofs.RenderPages | app.py:147-210 | the document starts with background and font and ends with a page finish; its page count is one more than the number of breaks, so at least 1; every earlier finish is followed by a fresh header |
| LayoutProofs.StepStaysOnPage | app.py:163-208 | if the page can hold its first line and the metrics are non-negative, one token keeps the pen between the lowest baseline and the top line, draws texts and highlights only on baselines inside that band, and never moves the pen up on the same page |
| LayoutProofs.RunStaysOnPage | app.py:163-208 | the pagination invariant holds through the whole loop |
| LayoutProofs.RenderStaysOnPage | app.py:160-210 | every text and highlight of the document has its baseline between the lowest allowed baseline and the first line, and no text starts left of the margin; the glyphs and boxes themselves extend by the font's descent and ascent around that baseline |
| LayoutProofs.A4PageValid | app.py:123-132 | the A4 settings (20 mm margins, 22 pt type, 10 pt spacing, line spacing 1.8 times the type size) leave room for a first line above the lowest baseline |
| LayoutProofs.NarrowWordFits | app.py:183-185 | a word no wider than the writing area always ends inside it after the width check |
| LayoutProofs.WideWordStartsNewLine | app.py:183-206 | a word wider than the writing area is drawn whole at the margin, after a line change or a page break, even if the pen was already at the margin |
| LayoutProofs.BlankLinesStayOnPage | app.py:164-172 | end-of-line markers that stay above the lowest baseline draw nothing, and each lowers the pen by one paragraph drop |
| LayoutProofs.BlankLinesThenBreak | app.py:164-172 | end-of-line markers whose last one passes the lowest baseline draw only one page break and its header, and leave the pen at the top of the next page |
| LayoutProofs.BlankLinesFillA4Page | app.py:160-172 | on A4, 14 end-of-line markers fit on one page and a fifteenth starts a second |
| Subscribers.NormalizeEmail | app.py:44 | the normalised address is empty exactly when the raw one is blank, has no whitespace at either end and has no upper-case letter |
| Subscribers.NormalizeEmailIdempotent | app.py:44 | normalising twice equals normalising once |
| Subscribers.LastField | app.py:53 | `split("@")[-1]`: the suffix after the last separator, or the whole string when there is none |
| Subscribers.ValidEmailMeaning | app.py:53 | an address is valid exactly when it has an '@' with no later '@' and a '.' after it |
| Subscribers.ValidEmailAccepts | app.py:53 | `ann@mail.org` is accepted |
| Subscribers.ValidEmailRejects | app.py:53 | `ann.lee@org` is refused, because its dot comes before the '@'; `a@b.c@d` is refused, because its only dot comes before the last '@' |
| Subscribers.Upsert | app.py:54-63 | a new address is stored with count 1 (saved); a known address has its count raised by exactly 1 (incremented); no other entry changes |
| Subscribers.SubmitTwice | app.py:54-63 | the same new address submitted twice is saved, then incremented, and ends with count 2 |
| Subscribers.RecordAll | app.py:54-63 | after a series of valid submissions, the store holds exactly the addresses it held before plus those submitted |
| Subscribers.CountsSubmissions | app.py:54-63 | after a series of submissions, each address's count is the old count plus the number of submissions |
| Fonts.SelectFont | app.py:98-118 | the bundled font is chosen exactly when its file exists and loads; the system font exactly when there is no bundled file and the system font loads; Helvetica otherwise |
| Generate.RecordEmail | app.py:52-66 | with no address nothing is stored; an invalid address is reported and not stored; a valid one goes through the upsert |
| Generate.HandleGenerate | app.py:40-78 | a request is rejected exactly when its text is blank, and then the store is untouched; otherwise the normalised address is recorded and the stripped text is laid out |
| Generate.AcceptedDocumentShowsText | app.py:43-70 | a request whose text is not blank is accepted and draws at least one word; the words drawn, glued together, are the submitted text's non-whitespace characters; the document has at least one page |
| Generate.SameAddressTwice | app.py:52-63 | two requests with the same new valid address are reported as saved and then incremented; the address ends with count 2 |

The functions that carry the loop and the request logic are `Tokenizer.Tokenize` (app.py:150-158), `Layout.PlaceWord` (app.py:174-208), `Layout.Run` (app.py:160-208), `Layout.Render` (app.py:147-210), `Layout.RenderText` (app.py:120-214) and `Subscribers.ValidEmail` (app.py:53). Their properties are stated by the lemmas in the rows above that name them.

## Left out

- Flask routing, templates, `flash` messages, `send_file` and redirects. The handler is reduced to the response it decides on, with an `EmailOutcome` in place of the message it flashes.
- The admin login, session and password comparison (app.py:80-93). This is session state with no layout or store logic.
- The file-system probing and ReportLab registration inside `register_fonts`. These become the three booleans of `FontProbe`. The `mkdir` of the fonts directory is left out.
- ReportLab itself: canvas internals, rounded-corner radii, the fill colours and the PDF bytes. Each drawing call is an opaque instruction. `Background` stands for the page fill and panel of `draw_background`, whose geometry is not modelled.
- Floating point. All geometry is exact `real` arithmetic. `mm` is 72/25.4 and A4 is 210 mm by 297 mm, so rounding in `stringWidth` or in the loop is not modelled.
- Font metrics. `stringWidth`, `getAscent` and `getDescent` are fields of a `Font` record for the one font at 22 pt. The layout properties assume only that widths and the ascent are non-negative.
- Text.SplitLines: splits at '\n' only. Text with '\r\n' line ends still gives the same tokens, because the '\r' left at the end of each line is whitespace that the tokenizer drops (`Tokenizer.CrLfLineEnds`). Python's `splitlines()` also breaks at a lone '\r', '\x0b', '\x0c', '\x1c' to '\x1e', '\x85', '\u2028' and '\u2029'. A text that uses one of those as a line end, or has a '\r' directly before a '\r\n', gives fewer end-of-line markers here; and, for '\x85', '\u2028' and '\u2029', which are not whitespace here either, the words on either side become one word.
- Text.IsSpace: whitespace is the ASCII set of `str.isspace` (space, '\t' to '\r', '\x1c' to '\x1f'); non-ASCII whitespace such as '\x85', '\xa0' or '\u3000' is not whitespace here.
- Text.Lower: maps only 'A' to 'Z'; non-ASCII case mapping is not modelled.
- models.py and config.py: the database schema and the configuration. The subscriber's `created_at` timestamp is not modelled; the store keeps only the count.
- `os.urandom` for the secret key, `makedirs` and `db.create_all()` at start-up.
- The layout of one request is pure: it depends only on the text, the page settings and the font. The subscriber store is the one state shared between requests, and the model threads it through `Generate.HandleGenerate` one request at a time.
- Concurrent submissions of the same new address are not modelled. Under a threaded server, two requests can both find no row at app.py:54 and both insert; the `unique=True` email column (models.py:8) then makes the second commit fail, and that request errors instead of incrementing.

## Notes on the code

- **A text with no words can still fill two pages.** On A4, fifteen end-of-line markers in a row force a page break (`LayoutProofs.BlankLinesFillA4Page`). The `/generate` handler rejects whitespace-only text, so every accepted document draws at least one word (`Generate.AcceptedDocumentShowsText`).
- **The font fallback skips a tier.** A bundled font file that exists but fails to load leads straight to Helvetica; the system font is then never tried (`Fonts.SelectFont`).
- **The dot must come after the last '@'.** The address check looks for a '.' only in the part after the last '@', so `ann.lee@org` is refused (`Subscribers.ValidEmailRejects`).
- **x can pass the right edge.** A word wider than the whole writing width is still drawn whole from the margin and runs past the right edge, and it costs a line change even when the pen is already at the margin (`LayoutProofs.WideWordStartsNewLine`).
