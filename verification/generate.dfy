/** The decisions of the `/generate` handler (app.py:40-78): reject a blank
    text, record a valid contact address, and lay out the stripped text. The
    web plumbing (form access, flash messages, redirects, sending the file)
    is reduced to the response it decides on. */
module Generate {
  import opened Text
  import opened Tokenizer
  import opened Instructions
  import opened Layout
  import opened LayoutProofs
  import opened Subscribers

  datatype Response =
    | Rejected                                        // blank text: back to the form
    | Pdf(email: EmailOutcome, document: seq<Instr>)  // the document, and what became of the address

  /** The address check (app.py:52-66): no address and an invalid address
      leave the store alone and say so; a valid one is recorded. */
  function RecordEmail(store: map<string, nat>, email: string): (r: (map<string, nat>, EmailOutcome))
    ensures r.1 == NoEmail <==> email == []
    ensures r.1 == Invalid <==> email != [] && !ValidEmail(email)
    ensures ValidEmail(email) ==> r == Upsert(store, email)
    ensures !ValidEmail(email) ==> r.0 == store
  {
    if email == [] then (store, NoEmail)
    else if ValidEmail(email) then Upsert(store, email)
    else (store, Invalid)
  }

  /** A request: a blank text is rejected before the address is looked at,
      so the store is untouched; otherwise the address is checked and the
      stripped text is laid out. */
  function HandleGenerate(g: Geometry, f: Font, store: map<string, nat>, rawText: string, rawEmail: string)
    : (r: (map<string, nat>, Response))
    ensures r.1.Rejected? <==> IsBlank(rawText)
    ensures r.1.Rejected? ==> r.0 == store
    ensures r.1.Pdf? ==> (r.0, r.1.email) == RecordEmail(store, NormalizeEmail(rawEmail))
    ensures r.1.Pdf? ==> r.1.document == RenderText(g, f, Strip(rawText))
  {
    var text := Strip(rawText);
    if text == [] then (store, Rejected)
    else
      var recorded := RecordEmail(store, NormalizeEmail(rawEmail));
      (recorded.0, Pdf(recorded.1, RenderText(g, f, text)))
  }

  /** Every accepted request draws at least one word, and the words drawn,
      glued together, are exactly the non-whitespace characters of the text
      submitted; the document has at least one page. */
  lemma AcceptedDocumentShowsText(g: Geometry, f: Font, store: map<string, nat>, rawText: string, rawEmail: string)
    requires !IsBlank(rawText)
    ensures HandleGenerate(g, f, store, rawText, rawEmail).1.Pdf?
    ensures var doc := HandleGenerate(g, f, store, rawText, rawEmail).1.document;
            && WordsDrawn(doc) != []
            && Concat(WordsDrawn(doc)) == RemoveSpaces(rawText)
            && CountPages(doc) >= 1
  {
    var text := Strip(rawText);
    var toks := Tokenize(text);
    RenderDrawsEveryWord(g, f, toks);
    RenderPages(g, f, toks);
    TokenizeKeepsText(text);
    NoWordsIffBlank(text);
    StripKeepsText(rawText);
  }

  /** The same address with two documents: when its normalised form is
      valid and not yet stored, it is saved the first time, counted again the
      second, and stored once. */
  lemma SameAddressTwice(g: Geometry, f: Font, store: map<string, nat>, text: string, rawEmail: string)
    requires !IsBlank(text)
    ensures var e := NormalizeEmail(rawEmail);
            var first := HandleGenerate(g, f, store, text, rawEmail);
            var second := HandleGenerate(g, f, first.0, text, rawEmail);
            ValidEmail(e) && e !in store ==>
              && first.1.email == Saved && second.1.email == Incremented
              && second.0[e] == 2
              && second.0.Keys == store.Keys + {e}
  {
    var e := NormalizeEmail(rawEmail);
    if ValidEmail(e) && e !in store {
      var first := HandleGenerate(g, f, store, text, rawEmail);
      assert (first.0, first.1.email) == Upsert(store, e);
      var second := HandleGenerate(g, f, first.0, text, rawEmail);
      assert (second.0, second.1.email) == Upsert(first.0, e);
      SubmitTwice(store, e);
    }
  }
}
