/** The contact-address handling of the `/generate` handler (app.py:44,
    52-66): normalisation, the validity check, and the subscriber store as a
    map from address to the number of documents generated with it. */
module Subscribers {
  import opened Text

  /** What became of the address given with a request. */
  datatype EmailOutcome =
    | NoEmail      // no address given (after stripping)
    | Invalid      // given but fails the check, not stored
    | Saved        // first time seen, stored with count 1
    | Incremented  // already stored, count raised by one

  /** `email.strip().lower()`: empty exactly when the raw address is blank;
      otherwise neither end is whitespace; no upper-case letter remains. */
  function NormalizeEmail(raw: string): (e: string)
    ensures e == [] <==> IsBlank(raw)
    ensures e != [] ==> !IsSpace(e[0]) && !IsSpace(e[|e| - 1])
    ensures forall i :: 0 <= i < |e| ==> !('A' <= e[i] <= 'Z')
  {
    Lower(Strip(raw))
  }

  /** Normalising twice is normalising once, so a stored address is stored
      under the same key when it is submitted again. */
  lemma NormalizeEmailIdempotent(raw: string)
    ensures NormalizeEmail(NormalizeEmail(raw)) == NormalizeEmail(raw)
  {
    NormalizedIsFixed(NormalizeEmail(raw));
  }

  lemma NormalizedIsFixed(e: string)
    requires e == [] || (!IsSpace(e[0]) && !IsSpace(e[|e| - 1]))
    requires forall i :: 0 <= i < |e| ==> !('A' <= e[i] <= 'Z')
    ensures NormalizeEmail(e) == e
  {
    StripTrimmed(e);
    LowerIdempotent(e);
  }

  /** Position just after the last `sep` before position `j`, or 0 when
      there is none. */
  function FieldStart(s: string, sep: char, j: nat): (i: nat)
    requires j <= |s|
    ensures i <= j
    ensures forall k :: i <= k < j ==> s[k] != sep
    ensures 0 < i ==> s[i - 1] == sep
    decreases j
  {
    if j == 0 || s[j - 1] == sep then j else FieldStart(s, sep, j - 1)
  }

  /** Python's `s.split(sep)[-1]`: the text after the last `sep`, or all of
      `s` when there is none. */
  function LastField(s: string, sep: char): (r: string)
    ensures |r| <= |s| && r == s[|s| - |r|..]
    ensures sep !in r
    ensures |r| < |s| ==> s[|s| - |r| - 1] == sep
  {
    var i := FieldStart(s, sep, |s|);
    assert forall k :: 0 <= k < |s| - i ==> s[i..][k] == s[i + k];
    s[i..]
  }

  /** The check of app.py:53: an '@', and a '.' after the last '@'. */
  predicate ValidEmail(e: string) {
    '@' in e && '.' in LastField(e, '@')
  }

  /** The check reads: some '@' is the last one and a '.' follows it. */
  lemma ValidEmailMeaning(e: string)
    ensures ValidEmail(e) <==>
            exists i :: 0 <= i < |e| && e[i] == '@' && '@' !in e[i + 1..] && '.' in e[i + 1..]
  {
    var r := LastField(e, '@');
    if '@' in e {
      var j := |e| - |r| - 1;
      assert e[j + 1..] == r;
      if ValidEmail(e) {
        assert e[j] == '@' && '@' !in e[j + 1..] && '.' in e[j + 1..];
      }
    }
  }

  /** A dot after the only '@' is accepted. */
  lemma ValidEmailAccepts()
    ensures ValidEmail("ann@mail.org")
  {
    var e := "ann@mail.org";
    assert e[3] == '@' && e[4..] == "mail.org";
    assert '@' !in e[4..] && '.' in e[4..];
    ValidEmailMeaning(e);
  }

  /** Two addresses the check refuses: a dot only before the '@', and a dot
      only before the last '@'. */
  lemma ValidEmailRejects()
    ensures !ValidEmail("ann.lee@org")
    ensures !ValidEmail("a@b.c@d")
  {
    var e := "ann.lee@org";
    assert FieldStart(e, '@', |e|) == 8 by {
      assert e[7] == '@' && e[8] == 'o' && e[9] == 'r' && e[10] == 'g';
    }
    assert LastField(e, '@') == "org";
    var v := "a@b.c@d";
    assert FieldStart(v, '@', |v|) == 6 by {
      assert v[5] == '@' && v[6] == 'd';
    }
    assert LastField(v, '@') == "d";
  }

  /** Recording a valid address (app.py:54-63): a new one is stored with
      count 1, a known one has its count raised by exactly 1, and every other
      entry is left alone. */
  function Upsert(store: map<string, nat>, email: string): (r: (map<string, nat>, EmailOutcome))
    ensures r.0.Keys == store.Keys + {email}
    ensures email in store ==> r.0[email] == store[email] + 1 && r.1 == Incremented
    ensures email !in store ==> r.0[email] == 1 && r.1 == Saved
    ensures forall k :: k in store && k != email ==> r.0[k] == store[k]
  {
    if email in store then (store[email := store[email] + 1], Incremented)
    else (store[email := 1], Saved)
  }

  /** The same address submitted twice: stored once, then counted again. */
  lemma SubmitTwice(store: map<string, nat>, email: string)
    requires email !in store
    ensures var once := Upsert(store, email);
            var twice := Upsert(once.0, email);
            once.1 == Saved && twice.1 == Incremented && twice.0[email] == 2
            && twice.0.Keys == store.Keys + {email}
  {
  }

  /** The store after a series of valid submissions, oldest first. */
  function RecordAll(store: map<string, nat>, emails: seq<string>): (r: map<string, nat>)
    ensures r.Keys == store.Keys + (set x | x in emails)
    decreases |emails|
  {
    if emails == [] then store
    else
      assert (set x | x in emails) == {emails[0]} + (set x | x in emails[1..]);
      RecordAll(Upsert(store, emails[0]).0, emails[1..])
  }

  function Occurrences(emails: seq<string>, e: string): nat {
    if emails == [] then 0 else (if emails[0] == e then 1 else 0) + Occurrences(emails[1..], e)
  }

  /** The counter means what its name says: after a series of submissions
      an address's count is what it was plus the number of times it was
      submitted (and the store holds exactly the addresses it held and those
      submitted, by the contract of `RecordAll`). */
  lemma {:induction false} CountsSubmissions(store: map<string, nat>, emails: seq<string>, e: string)
    ensures e in store || e in emails ==>
              RecordAll(store, emails)[e] == (if e in store then store[e] else 0) + Occurrences(emails, e)
    decreases |emails|
  {
    if emails != [] {
      var next := Upsert(store, emails[0]).0;
      var rest := emails[1..];
      CountsSubmissions(next, rest, e);
      assert e in emails <==> e == emails[0] || e in rest;
    }
  }
}
