/**
 * Inputs worked through the validators: what `is_match` accepts and
 * rejects for each pattern, and what `find_all` reports on a few texts.
 * Each case is a lemma about the model evaluated on a literal input.
 */
module PatternCases {
  import opened Wrappers
  import opened Chars
  import opened Scanner
  import opened RegexPatterns
  import EmailPattern
  import UrlPattern

  lemma EmailAccepts()
    ensures EMAIL.IsMatch("a@b.com")
  {
    var s := "a@b.com";
    assert All(s, 0, 1, LocalPart) && !In(LocalPart, s[1]);
    assert All(s, 4, 7, Letter) && !In(Letter, s[3]);
  }

  lemma EmailRejects()
    ensures !EMAIL.IsMatch("a@.com")
    ensures !EMAIL.IsMatch("a@b.c")
    ensures !EMAIL.IsMatch(".a@b.com")
  {
    var s := "a@.com";
    assert All(s, 0, 1, LocalPart) && !In(LocalPart, s[1]);
    assert All(s, 3, 6, Letter) && !In(Letter, s[2]);
    var u := "a@b.c";
    assert All(u, 4, 5, Letter) && !In(Letter, u[3]);
    assert !IsWord(".a@b.com"[0]);
  }

  lemma PhoneAcceptsMixedSeparators()
    ensures PHONE.IsMatch("123-456.7890")
  {
  }

  lemma PhoneAcceptsParenthesized()
    ensures PHONE.IsMatch("(123)   456.7890")
  {
    var s := "(123)   456.7890";
    assert All(s, 5, 8, Space) && !In(Space, s[8]);
  }

  lemma PhoneRejects()
    ensures !PHONE.IsMatch("1234567890")
  {
  }

  lemma CreditCardAccepts()
    ensures CREDIT_CARD.IsMatch("1234-5678 9012-3456")
  {
  }

  lemma CreditCardRejects()
    ensures !CREDIT_CARD.IsMatch("1234567890123456")
  {
  }

  lemma Time24hAccepts()
    ensures TIME_24H.IsMatch("00:00")
    ensures TIME_24H.IsMatch("9:05")
    ensures TIME_24H.IsMatch("23:59")
  {
  }

  lemma Time24hRejects()
    ensures !TIME_24H.IsMatch("24:00")
  {
  }

  lemma Time12hAcceptsSpaced()
    ensures TIME_12H.IsMatch("11:59 PM")
  {
    var s := "11:59 PM";
    assert All(s, 0, 2, Digit) && !In(Digit, s[2]);
  }

  lemma Time12hAcceptsJoined()
    ensures TIME_12H.IsMatch("09:30am")
  {
    var s := "09:30am";
    assert All(s, 0, 2, Digit) && !In(Digit, s[2]);
  }

  lemma Time12hRejects()
    ensures !TIME_12H.IsMatch("13:00 PM")
    ensures !TIME_12H.IsMatch("0:30 AM")
    ensures !TIME_12H.IsMatch("00:30 AM")
  {
  }

  lemma TimeAccepts()
    ensures TIME.IsMatch("23:59")
    ensures TIME.IsMatch("11:59 PM")
  {
  }

  lemma HtmlTagAcceptsName()
    ensures HTML_TAG.IsMatch("<div >")
  {
    var s := "<div >";
    assert All(s, 2, 4, LabelPart) && !In(LabelPart, s[4]);
  }

  lemma HtmlTagAcceptsAttribute()
    ensures HTML_TAG.IsMatch("<p class=\"x\">")
  {
    var s := "<p class=\"x\">";
    assert !In(LabelPart, s[2]) && All(s, 3, |s| - 1, NotAngle);
  }

  lemma HtmlTagRejects()
    ensures !HTML_TAG.IsMatch("</div>")
    ensures !HTML_TAG.IsMatch("<br/>")
    ensures !HTML_TAG.IsMatch("<a><b>")
  {
    assert !IsLetter("</div>"[1]);
    var s := "<br/>";
    assert All(s, 2, 3, LabelPart) && !In(LabelPart, s[3]);
    var u := "<a><b>";
    assert !In(LabelPart, u[2]) && !IsSpace(u[2]);
  }

  lemma HashtagAccepts()
    ensures HASHTAG.IsMatch("#go")
    ensures HASHTAG.IsMatch("#123test")
  {
  }

  lemma HashtagRejects()
    ensures !HASHTAG.IsMatch("#")
  {
  }

  lemma CurrencyAccepts()
    ensures CURRENCY.IsMatch("$1,234.56")
    ensures CURRENCY.IsMatch("$1234")
  {
  }

  lemma CurrencyRejects()
    ensures !CURRENCY.IsMatch("$12,34")
    ensures !CURRENCY.IsMatch("$.50")
  {
  }

  /** A local part with dots and a plus, and a domain with several labels. */
  const LONG_EMAIL := "first.last+tag@mail.example.org"

  lemma LongEmailLocalPart()
    ensures RunEnd(LONG_EMAIL, 0, LocalPart) == 14 && LONG_EMAIL[14] == '@'
  {
    assert All(LONG_EMAIL, 0, 14, LocalPart) && !In(LocalPart, LONG_EMAIL[14]);
  }

  lemma LongEmailDomain()
    ensures RunStart(LONG_EMAIL, 31, Letter) == 28 && LONG_EMAIL[27] == '.'
    ensures All(LONG_EMAIL, 15, 27, DomainPart)
  {
    assert All(LONG_EMAIL, 28, 31, Letter) && !In(Letter, LONG_EMAIL[27]);
  }

  lemma LongEmailAccepted()
    ensures EMAIL.IsMatch(LONG_EMAIL)
  {
    LongEmailLocalPart();
    LongEmailDomain();
  }

  const PLAIN_URL := "https://example.com"

  lemma PlainUrlScheme()
    ensures UrlPattern.SchemeEnd(PLAIN_URL, 0) == Some(8)
  {
  }

  lemma PlainUrlHost()
    ensures RunEnd(PLAIN_URL, 8, DomainPart) == 19 && RunStart(PLAIN_URL, 19, Letter) == 16
  {
    assert All(PLAIN_URL, 8, 19, DomainPart);
    assert All(PLAIN_URL, 16, 19, Letter) && !In(Letter, PLAIN_URL[15]);
  }

  lemma PlainUrlLabels()
    ensures UrlPattern.DottedLabels(PLAIN_URL, 8, 16)
  {
    assert forall p :: 8 <= p < 15 ==> PLAIN_URL[p] != '.';
  }

  lemma PlainUrlAccepted()
    ensures URL.IsMatch(PLAIN_URL)
  {
    PlainUrlScheme();
    PlainUrlHost();
    PlainUrlLabels();
  }

  const PATH_URL := "http://a.b.org/p"

  lemma PathUrlParts()
    ensures UrlPattern.SchemeEnd(PATH_URL, 0) == Some(7)
    ensures RunEnd(PATH_URL, 7, DomainPart) == 14 && RunStart(PATH_URL, 14, Letter) == 11
    ensures UrlPattern.DottedLabels(PATH_URL, 7, 11)
    ensures PATH_URL[14] == '/' && All(PATH_URL, 15, 16, PathPart) && IsWord(PATH_URL[15])
  {
    assert PATH_URL[7] == 'a' && PATH_URL[8] == '.' && PATH_URL[9] == 'b' && PATH_URL[10] == '.';
  }

  lemma PathUrlAccepted()
    ensures URL.IsMatch(PATH_URL)
  {
    PathUrlParts();
  }

  /** A trailing '/' is a path that does not end with a word character. */
  const SLASH_URL := "https://example.com/"

  lemma SlashUrlScheme()
    ensures UrlPattern.SchemeEnd(SLASH_URL, 0) == Some(8)
  {
  }

  lemma SlashUrlHost()
    ensures RunEnd(SLASH_URL, 8, DomainPart) == 19 && !IsWord(SLASH_URL[19])
  {
    assert All(SLASH_URL, 8, 19, DomainPart) && !In(DomainPart, SLASH_URL[19]);
  }

  lemma SlashUrlRejected()
    ensures !URL.IsMatch(SLASH_URL)
  {
    SlashUrlScheme();
    SlashUrlHost();
  }

  /** A host without a dot has no top-level domain. */
  const DOTLESS_URL := "http://localhost"

  lemma DotlessUrlParts()
    ensures UrlPattern.SchemeEnd(DOTLESS_URL, 0) == Some(7)
    ensures RunEnd(DOTLESS_URL, 7, DomainPart) == 16 && RunStart(DOTLESS_URL, 16, Letter) == 7
  {
    assert All(DOTLESS_URL, 7, 16, Letter) && !In(Letter, DOTLESS_URL[6]);
  }

  lemma DotlessUrlRejected()
    ensures !URL.IsMatch(DOTLESS_URL)
  {
    DotlessUrlParts();
  }

  /** A cents part of one digit, and a comma group of four digits. */
  lemma CurrencyGroupingRejects()
    ensures !CURRENCY.IsMatch("$1,234.5")
    ensures !CURRENCY.IsMatch("$1,2345")
  {
    var s := "$1,234.5";
    assert RunEnd(s, 1, Digit) == 2 && !IsDigit(s[2]);
    var u := "$1,2345";
    assert RunEnd(u, 1, Digit) == 2 && !IsDigit(u[2]);
  }

  // ---------------------------------------------------------------------
  // What `find_all` reports

  /** The combined time pattern tries its 24-hour alternative first: where
      a space separates the suffix, "11:59" alone is found, although the whole
      text also matches the 12-hour alternative. */
  lemma TimeSpacedSuffix()
    ensures Spans(Time, SPACED_TIME) == [Span(0, 5)]
    ensures Texts(SPACED_TIME, Spans(Time, SPACED_TIME)) == ["11:59"]
    ensures TIME.IsMatch(SPACED_TIME)
  {
    SpacedTimeSpans();
    OneText(SPACED_TIME, 0, 5);
    assert SPACED_TIME[0..5] == "11:59";
    TimeAccepts();
  }

  lemma SpacedTimeSpans()
    ensures Spans(Time, SPACED_TIME) == [Span(0, 5)]
  {
    var m := Engine(Time, SPACED_TIME);
    SpacedTimeFirst();
    SpacedTimeRest();
    forall i: nat | i <= 8 && (i < 0 || 5 <= i) ensures m(i).None? {
      assert m(i) == TimePattern.MatchAt(SPACED_TIME, i);
    }
    OneMatchScan(m, 8, 0, 5);
  }

  const SPACED_TIME := "11:59 PM"

  lemma SpacedTimeFirst()
    ensures TimePattern.MatchAt(SPACED_TIME, 0) == Some(5)
  {
  }

  lemma SpacedTimeRest()
    ensures TimePattern.MatchAt(SPACED_TIME, 5) == None && TimePattern.MatchAt(SPACED_TIME, 6) == None
    ensures TimePattern.MatchAt(SPACED_TIME, 7) == None && TimePattern.MatchAt(SPACED_TIME, 8) == None
  {
  }

  /** The text of one span. */
  lemma OneText(t: string, s: nat, e: nat)
    requires s <= e <= |t|
    ensures Texts(t, [Span(s, e)]) == [t[s..e]]
  {
    assert [Span(s, e)][1..] == [];
  }

  /** Where the suffix follows directly, the 24-hour alternative fails its
      final \b and the 12-hour one is found. */
  lemma TimeJoinedSuffix()
    ensures Spans(Time, "11:59PM") == [Span(0, 7)]
    ensures Texts("11:59PM", Spans(Time, "11:59PM")) == ["11:59PM"]
  {
    var t := "11:59PM";
    var m := Engine(Time, t);
    assert m(7) == None;
    assert m(0) == Some(7);
    assert t[0..7] == t;
  }

  /** Two addresses run together: the first ends at the '.' after "com", a
      \b, and the second is found from that '.', which the local part's
      class accepts, so it does not match on its own. */
  const RUN_ON := "x@y.com.b@c.com"

  lemma RunOnFirst()
    ensures EmailPattern.MatchAt(RUN_ON, 0) == Some(7)
  {
    assert Boundary(RUN_ON, 0);
    RunOnFirstRuns();
    RunOnFirstTld();
  }

  lemma RunOnFirstRuns()
    ensures RunEnd(RUN_ON, 0, LocalPart) == 1 && RUN_ON[1] == '@'
    ensures RunEnd(RUN_ON, 2, DomainPart) == 9
  {
    assert All(RUN_ON, 0, 1, LocalPart) && !In(LocalPart, RUN_ON[1]);
    assert All(RUN_ON, 2, 9, DomainPart) && !In(DomainPart, RUN_ON[9]);
  }

  lemma RunOnFirstTld()
    ensures EmailPattern.LastTld(RUN_ON, 1, 9) == Some(7)
  {
    assert All(RUN_ON, 8, 9, Letter) && !In(Letter, RUN_ON[9]);
    assert All(RUN_ON, 4, 7, Letter) && !In(Letter, RUN_ON[7]);
    assert RUN_ON[3] == '.' && Boundary(RUN_ON, 7);
    assert RUN_ON[8] != '.' && RUN_ON[7] == '.' && RUN_ON[6] != '.' && RUN_ON[5] != '.' && RUN_ON[4] != '.';
  }

  lemma RunOnSecond()
    ensures EmailPattern.MatchAt(RUN_ON, 7) == Some(15)
  {
    assert Boundary(RUN_ON, 7);
    assert RunEnd(RUN_ON, 7, LocalPart) == 9;
    assert RunEnd(RUN_ON, 10, DomainPart) == 15;
    assert RunEnd(RUN_ON, 12, Letter) == 15;
    assert EmailPattern.LastTld(RUN_ON, 9, 15) == Some(15);
  }

  lemma RunOnEnd()
    ensures EmailPattern.MatchAt(RUN_ON, 15) == None
  {
    assert Boundary(RUN_ON, 15);
    assert RunEnd(RUN_ON, 15, LocalPart) == 15;
  }

  lemma TwoMatchesScan(m: nat -> Option<nat>)
    requires Bounded(m, 15)
    requires m(0) == Some(7) && m(7) == Some(15) && m(15) == None
    ensures Scan(m, 15, 0) == [Span(0, 7), Span(7, 15)]
  {
    assert Scan(m, 15, 15) == [];
  }

  lemma RunOnSpans()
    ensures Spans(Email, RUN_ON) == [Span(0, 7), Span(7, 15)]
  {
    RunOnFirst();
    RunOnSecond();
    RunOnEnd();
    TwoMatchesScan(Engine(Email, RUN_ON));
  }

  lemma RunOnSecondRejected()
    ensures !EMAIL.IsMatch(RUN_ON[7..15])
  {
    assert RUN_ON[7..15] == ".b@c.com";
  }

  /** No address starts at i when the local part's run from i stops at k
      without reaching an '@'. */
  lemma EmailBlocked(t: string, i: nat, k: nat)
    requires i <= k <= |t|
    requires k == |t| || (!In(LocalPart, t[k]) && t[k] != '@')
    requires forall j :: i <= j < k ==> t[j] != '@'
    ensures EmailPattern.MatchAt(t, i) == None
  {
    var a := RunEnd(t, i, LocalPart);
    assert a <= k;
  }

  /** Extraction is a search and validation a whole match: the address in
      a sentence is found, while the sentence is no address. */
  const SENTENCE := "contact me at a@b.com please"

  lemma SentenceAddress()
    ensures EmailPattern.MatchAt(SENTENCE, 14) == Some(21)
  {
    assert Boundary(SENTENCE, 14);
    SentenceRuns();
    SentenceTld();
  }

  lemma SentenceRuns()
    ensures RunEnd(SENTENCE, 14, LocalPart) == 15 && SENTENCE[15] == '@'
    ensures RunEnd(SENTENCE, 16, DomainPart) == 21
  {
    assert All(SENTENCE, 14, 15, LocalPart) && !In(LocalPart, SENTENCE[15]);
    assert All(SENTENCE, 16, 21, DomainPart) && !In(DomainPart, SENTENCE[21]);
  }

  lemma SentenceTld()
    ensures EmailPattern.LastTld(SENTENCE, 15, 21) == Some(21)
  {
    assert All(SENTENCE, 18, 21, Letter) && !In(Letter, SENTENCE[21]);
    assert Boundary(SENTENCE, 21);
    assert SENTENCE[20] != '.' && SENTENCE[19] != '.' && SENTENCE[18] != '.' && SENTENCE[17] == '.';
  }

  lemma SentenceElsewhere(i: nat)
    requires i <= |SENTENCE| && (i < 14 || 21 <= i)
    ensures EmailPattern.MatchAt(SENTENCE, i) == None
  {
    assert forall j :: 0 <= j < 14 ==> SENTENCE[j] != '@';
    assert forall j :: 21 <= j < 28 ==> SENTENCE[j] != '@';
    if i < 14 {
      assert SENTENCE[13] == ' ';
      EmailBlocked(SENTENCE, i, 13);
    } else {
      EmailBlocked(SENTENCE, i, 28);
    }
  }

  lemma OneMatchScan(m: nat -> Option<nat>, n: nat, s: nat, e: nat)
    requires Bounded(m, n) && m(s) == Some(e)
    requires forall i: nat :: i <= n && (i < s || e <= i) ==> m(i).None?
    ensures Scan(m, n, 0) == [Span(s, e)]
  {
    forall i: nat | i <= n && Uncovered([Span(s, e)], i) ensures m(i).None? {
      assert [Span(s, e)][0] == Span(s, e);
    }
    assert IsScan(m, n, 0, [Span(s, e)]);
    ScanCharacterized(m, n, [Span(s, e)]);
  }

  /** The one address found is SENTENCE[14..21], "a@b.com". */
  lemma SentenceSpans()
    ensures Spans(Email, SENTENCE) == [Span(14, 21)]
  {
    var m := Engine(Email, SENTENCE);
    SentenceAddress();
    forall i: nat | i <= 28 && (i < 14 || 21 <= i) ensures m(i).None? {
      SentenceElsewhere(i);
    }
    OneMatchScan(m, 28, 14, 21);
  }

  /** `find_all` on the sentence reports just the address. */
  lemma SentenceEmails()
    ensures Texts(SENTENCE, Spans(Email, SENTENCE)) == ["a@b.com"]
  {
    SentenceSpans();
    OneText(SENTENCE, 14, 21);
    SentenceSlice();
  }

  lemma SentenceSlice()
    ensures SENTENCE[14..21] == "a@b.com"
  {
    var a := SENTENCE[14..21];
    assert a[0] == 'a' && a[1] == '@' && a[2] == 'b' && a[3] == '.';
    assert a[4] == 'c' && a[5] == 'o' && a[6] == 'm';
  }

  lemma SentenceIsNoAddress()
    ensures !EMAIL.IsMatch(SENTENCE)
  {
    assert forall j :: 0 <= j < 7 ==> SENTENCE[j] != '@';
    assert SENTENCE[7] == ' ';
    EmailBlocked(SENTENCE, 0, 7);
  }
}
