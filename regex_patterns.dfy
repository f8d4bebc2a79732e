/**
 * The validators of core/regex_patterns.py: the frozen RegexValidator
 * record, its `find_all` and `is_match`, and the ten public validators.
 *
 * `find_all` collects `match.group(0)` over `pattern.finditer(text)`: the
 * scan of module Scanner, with the engine's answer for the pattern at each
 * position. No pattern matches the empty string, so the special case
 * `finditer` has for empty matches never arises.
 */
module RegexPatterns {
  import opened Wrappers
  import opened Chars
  import opened Scanner
  import EmailPattern
  import UrlPattern
  import PhonePattern
  import CreditCardPattern
  import TimePattern
  import HtmlTagPattern
  import HashtagPattern
  import CurrencyPattern

  /** The ten compiled patterns of the module. */
  datatype Pattern =
    | Email        // EMAIL_PATTERN
    | Url          // URL_PATTERN
    | Phone        // PHONE_PATTERN
    | CreditCard   // CREDIT_CARD_PATTERN
    | Time24h      // TIME_24H_PATTERN
    | Time12h      // TIME_12H_PATTERN
    | Time         // TIME_COMBINED_PATTERN
    | HtmlTag      // HTML_TAG_PATTERN
    | Hashtag      // HASHTAG_PATTERN
    | Currency     // CURRENCY_PATTERN

  /** The language of pattern p on ranges: p matches t[i..e], its anchors
      judged against the whole of t. */
  ghost predicate Matches(p: Pattern, t: string, i: int, e: int) {
    match p
    case Email => EmailPattern.At(t, i, e)
    case Url => UrlPattern.At(t, i, e)
    case Phone => PhonePattern.At(t, i, e)
    case CreditCard => CreditCardPattern.At(t, i, e)
    case Time24h => TimePattern.At24(t, i, e)
    case Time12h => TimePattern.At12(t, i, e)
    case Time => TimePattern.At24(t, i, e) || TimePattern.At12(t, i, e)
    case HtmlTag => HtmlTagPattern.At(t, i, e)
    case Hashtag => HashtagPattern.At(t, i, e)
    case Currency => CurrencyPattern.At(t, i, e)
  }

  /** No match of p starts at i. */
  ghost predicate NoMatchAt(p: Pattern, t: string, i: int) {
    forall e :: !Matches(p, t, i, e)
  }

  /** The match the engine reports when it tries p at position i and it ends
      at e: the longest one, except for the combined time pattern, whose
      24-hour alternative wins whenever it matches at all. */
  ghost predicate Chosen(p: Pattern, t: string, i: int, e: int) {
    if p == Time then
      TimePattern.At24(t, i, e) || (TimePattern.At12(t, i, e) && forall e' :: !TimePattern.At24(t, i, e'))
    else
      Matches(p, t, i, e) && forall e' :: Matches(p, t, i, e') ==> e' <= e
  }

  /** The end of the match of p that the engine finds at position i, if any;
      MatchAtIsChosen says which end that is. */
  function MatchAt(p: Pattern, t: string, i: nat): (r: Option<nat>)
    requires i <= |t|
    ensures r.Some? ==> i < r.value <= |t|
  {
    match p
    case Email => EmailPattern.MatchAt(t, i)
    case Url => UrlPattern.MatchAt(t, i)
    case Phone => PhonePattern.MatchAt(t, i)
    case CreditCard => CreditCardPattern.MatchAt(t, i)
    case Time24h => TimePattern.MatchAt24(t, i)
    case Time12h => TimePattern.MatchAt12(t, i)
    case Time => TimePattern.MatchAt(t, i)
    case HtmlTag => HtmlTagPattern.MatchAt(t, i)
    case Hashtag => HashtagPattern.MatchAt(t, i)
    case Currency => CurrencyPattern.MatchAt(t, i)
  }

  /** An answer r that is a match of p at i and ends no earlier than any
      other is the chosen one, for every pattern but the combined time
      pattern. */
  lemma LongestIsChosen(p: Pattern, t: string, i: nat, r: Option<nat>)
    requires p != Time
    requires r.Some? ==> Matches(p, t, i, r.value)
    requires forall e :: Matches(p, t, i, e) ==> r.Some? && e <= r.value
    ensures forall e :: r == Some(e) <==> Chosen(p, t, i, e)
    ensures r.None? <==> NoMatchAt(p, t, i)
  {
    forall e | Chosen(p, t, i, e) ensures r == Some(e) {
      assert Matches(p, t, i, r.value);
    }
  }

  /** The combined time pattern's answer is the chosen one. */
  lemma TimeIsChosen(t: string, i: nat)
    requires i <= |t|
    ensures forall e :: TimePattern.MatchAt(t, i) == Some(e) <==> Chosen(Time, t, i, e)
    ensures TimePattern.MatchAt(t, i).None? <==> NoMatchAt(Time, t, i)
  {
    var r := TimePattern.MatchAt(t, i);
    if r.None? {
      assert forall e :: !TimePattern.At24(t, i, e);
      assert forall e :: !TimePattern.At12(t, i, e);
    } else {
      assert Matches(Time, t, i, r.value);
    }
  }

  /** The engine finds a match at i exactly when the pattern has one there,
      and the one it finds is the chosen one. */
  lemma MatchAtIsChosen(p: Pattern, t: string, i: nat)
    requires i <= |t|
    ensures forall e :: MatchAt(p, t, i) == Some(e) <==> Chosen(p, t, i, e)
    ensures MatchAt(p, t, i).None? <==> NoMatchAt(p, t, i)
  {
    match p
    case Email => LongestIsChosen(p, t, i, EmailPattern.MatchAt(t, i));
    case Url => LongestIsChosen(p, t, i, UrlPattern.MatchAt(t, i));
    case Phone => LongestIsChosen(p, t, i, PhonePattern.MatchAt(t, i));
    case CreditCard => LongestIsChosen(p, t, i, CreditCardPattern.MatchAt(t, i));
    case Time24h => LongestIsChosen(p, t, i, TimePattern.MatchAt24(t, i));
    case Time12h => LongestIsChosen(p, t, i, TimePattern.MatchAt12(t, i));
    case Time => TimeIsChosen(t, i);
    case HtmlTag => LongestIsChosen(p, t, i, HtmlTagPattern.MatchAt(t, i));
    case Hashtag => LongestIsChosen(p, t, i, HashtagPattern.MatchAt(t, i));
    case Currency => LongestIsChosen(p, t, i, CurrencyPattern.MatchAt(t, i));
  }

  /** `pattern.fullmatch(s)` succeeds. */
  function FullMatch(p: Pattern, s: string): (r: bool)
    ensures r <==> Matches(p, s, 0, |s|)
  {
    match p
    case Email => EmailPattern.FullMatch(s)
    case Url => UrlPattern.FullMatch(s)
    case Phone => PhonePattern.FullMatch(s)
    case CreditCard => CreditCardPattern.FullMatch(s)
    case Time24h => TimePattern.FullMatch24(s)
    case Time12h => TimePattern.FullMatch12(s)
    case Time => TimePattern.FullMatch(s)
    case HtmlTag => HtmlTagPattern.FullMatch(s)
    case Hashtag => HashtagPattern.FullMatch(s)
    case Currency => CurrencyPattern.FullMatch(s)
  }

  // ---------------------------------------------------------------------
  // The scan of `finditer`

  /** The engine's answers for p on t, position by position. */
  function Engine(p: Pattern, t: string): (m: nat -> Option<nat>)
    ensures Bounded(m, |t|)
  {
    (i: nat) => if i <= |t| then MatchAt(p, t, i) else None
  }

  /** The spans `p.finditer(t)` reports. */
  function Spans(p: Pattern, t: string): (r: seq<Span>)
    ensures forall k :: 0 <= k < |r| ==> r[k].start < r[k].end <= |t|
    ensures forall k :: 0 < k < |r| ==> r[k - 1].end <= r[k].start
  {
    Scan(Engine(p, t), |t|, 0)
  }

  /** `finditer` described in terms of the patterns alone: the spans are
      chosen matches, in order and without overlap, and no match starts at a
      position that no span covers. */
  ghost predicate IsFindIter(p: Pattern, t: string, spans: seq<Span>) {
    (forall k :: 0 <= k < |spans| ==>
      spans[k].start < spans[k].end <= |t| && Chosen(p, t, spans[k].start, spans[k].end))
    && (forall k :: 0 < k < |spans| ==> spans[k - 1].end <= spans[k].start)
    && (forall i: nat :: i <= |t| && Uncovered(spans, i) ==> NoMatchAt(p, t, i))
  }

  /** MatchAtIsChosen, for the answers the scan reads. */
  lemma EngineIsChosen(p: Pattern, t: string, i: nat)
    requires i <= |t|
    ensures forall e :: Engine(p, t)(i) == Some(e) <==> Chosen(p, t, i, e)
    ensures Engine(p, t)(i).None? <==> NoMatchAt(p, t, i)
  {
    MatchAtIsChosen(p, t, i);
  }

  lemma FindIterIsScan(p: Pattern, t: string, spans: seq<Span>)
    ensures IsFindIter(p, t, spans) <==> IsScan(Engine(p, t), |t|, 0, spans)
  {
    var m := Engine(p, t);
    if IsFindIter(p, t, spans) {
      forall k | 0 <= k < |spans| ensures m(spans[k].start) == Some(spans[k].end) {
        EngineIsChosen(p, t, spans[k].start);
      }
      forall i: nat | i <= |t| && Uncovered(spans, i) ensures m(i).None? {
        EngineIsChosen(p, t, i);
      }
    }
    if IsScan(m, |t|, 0, spans) {
      forall k | 0 <= k < |spans| ensures Chosen(p, t, spans[k].start, spans[k].end) {
        EngineIsChosen(p, t, spans[k].start);
      }
      forall i: nat | i <= |t| && Uncovered(spans, i) ensures NoMatchAt(p, t, i) {
        EngineIsChosen(p, t, i);
      }
    }
  }

  /** The spans of `finditer` are the one list that fits the description. */
  lemma SpansCharacterized(p: Pattern, t: string, spans: seq<Span>)
    ensures IsFindIter(p, t, spans) <==> spans == Spans(p, t)
  {
    FindIterIsScan(p, t, spans);
    ScanCharacterized(Engine(p, t), |t|, spans);
  }

  // ---------------------------------------------------------------------
  // What the scan finds

  /** A chosen match, read on its own, passes `fullmatch`; for the email
      pattern exactly when it starts with a word character, since inside the
      text the character in front of it can supply the leading \b. */
  lemma ChosenSliceMatches(p: Pattern, t: string, i: nat, e: nat)
    requires i < e <= |t| && Chosen(p, t, i, e)
    ensures p != Email ==> FullMatch(p, t[i..e])
    ensures p == Email ==> (FullMatch(p, t[i..e]) <==> IsWord(t[i]))
  {
    match p
    case Email => EmailPattern.SliceMatches(t, i, e);
    case Url =>
      assert forall e' :: UrlPattern.At(t, i, e') ==> e' <= e by {
        forall e' | UrlPattern.At(t, i, e') ensures e' <= e {
          assert Matches(p, t, i, e');
        }
      }
      UrlPattern.LongestEndsWithWord(t, i, e);
      UrlPattern.SliceMatches(t, i, e);
    case Phone => PhonePattern.SliceMatches(t, i, e);
    case CreditCard => CreditCardPattern.SliceMatches(t, i, e);
    case Time24h => TimePattern.SliceMatches24(t, i, e);
    case Time12h => TimePattern.SliceMatches12(t, i, e);
    case Time =>
      if TimePattern.At24(t, i, e) {
        TimePattern.SliceMatches24(t, i, e);
      } else {
        TimePattern.SliceMatches12(t, i, e);
      }
    case HtmlTag => HtmlTagPattern.SliceMatches(t, i, e);
    case Hashtag => HashtagPattern.SliceMatches(t, i, e);
    case Currency => CurrencyPattern.SliceMatches(t, i, e);
  }

  /** Every text `find_all` reports passes `is_match` of the same validator,
      except that an email address passes only when it starts with a word
      character. */
  lemma FoundTextsMatch(p: Pattern, t: string)
    ensures var spans := Spans(p, t);
      forall k :: 0 <= k < |spans| ==>
        (FullMatch(p, t[spans[k].start..spans[k].end]) <==> p != Email || IsWord(t[spans[k].start]))
  {
    var spans := Spans(p, t);
    forall k | 0 <= k < |spans|
      ensures FullMatch(p, t[spans[k].start..spans[k].end]) <==> p != Email || IsWord(t[spans[k].start])
    {
      EngineIsChosen(p, t, spans[k].start);
      ChosenSliceMatches(p, t, spans[k].start, spans[k].end);
    }
  }

  /** A text that matches as a whole is found whole, by every pattern except
      the combined time pattern, whose 24-hour alternative can stop short. */
  lemma FullMatchIsFound(p: Pattern, s: string)
    requires p != Time && FullMatch(p, s)
    ensures Spans(p, s) == [Span(0, |s|)]
    ensures Texts(s, Spans(p, s)) == [s]
  {
    WholeMatchIsChosen(p, s);
    ScanWhole(Engine(p, s), |s|);
    assert s[0..|s|] == s;
  }

  /** Where the whole text matches, the engine's match at 0 is all of it,
      the combined time pattern aside. */
  lemma WholeMatchIsChosen(p: Pattern, s: string)
    requires p != Time && Matches(p, s, 0, |s|)
    ensures MatchAt(p, s, 0) == Some(|s|)
  {
    MatchAtIsChosen(p, s, 0);
    var r := MatchAt(p, s, 0);
    assert !NoMatchAt(p, s, 0);
    assert Chosen(p, s, 0, r.value);
  }

  /** The phone validator finds at most one number, because of its anchors:
      the whole text, or the text without the newline that ends it. */
  lemma PhoneFoundOnce(t: string)
    ensures |Spans(Phone, t)| <= 1
    ensures |Spans(Phone, t)| == 1 ==>
      Spans(Phone, t)[0] == Span(0, |t|) || (Spans(Phone, t)[0] == Span(0, |t| - 1) && t[|t| - 1] == '\n')
  {
    var m := Engine(Phone, t);
    forall i: nat | 0 < i ensures m(i).None? {
      if i <= |t| {
        EngineIsChosen(Phone, t, i);
      }
    }
    ScanFromZeroOnly(m, |t|, 0);
    if m(0).Some? {
      EngineIsChosen(Phone, t, 0);
      assert PhonePattern.At(t, 0, m(0).value);
    }
  }

  // ---------------------------------------------------------------------
  // The validators

  /** `RegexValidator(name, pattern)`, a frozen dataclass. */
  datatype RegexValidator = RegexValidator(name: string, pattern: Pattern)
  {
    /** `find_all(text)`: the text of every match `finditer` reports, in order. */
    method FindAll(text: string) returns (found: seq<string>)
      ensures found == Texts(text, Spans(pattern, text))
    {
      found := Collect(Engine(pattern, text), text);
    }

    /** `is_match(text)`: the whole text matches the pattern. */
    function IsMatch(text: string): (r: bool)
      ensures r <==> Matches(pattern, text, 0, |text|)
    {
      FullMatch(pattern, text)
    }
  }

  const EMAIL := RegexValidator("email", Email)
  const URL := RegexValidator("url", Url)
  const PHONE := RegexValidator("phone", Phone)
  const CREDIT_CARD := RegexValidator("credit_card", CreditCard)
  const TIME_24H := RegexValidator("time_24h", Time24h)
  const TIME_12H := RegexValidator("time_12h", Time12h)
  const TIME := RegexValidator("time", Time)
  const HTML_TAG := RegexValidator("html_tag", HtmlTag)
  const HASHTAG := RegexValidator("hashtag", Hashtag)
  const CURRENCY := RegexValidator("currency", Currency)
}
