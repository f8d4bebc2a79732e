/**
 * core/extractors.py: the eight extractions of `find_all_in_text`, the
 * table-driven `validate_examples`, and the checks `get_valid_input` makes
 * of one line of input before it returns it.
 */
module Extractors {
  import opened Wrappers
  import opened Chars
  import opened Scanner
  import opened RegexPatterns
  import EmailPattern
  import UrlPattern
  import PhonePattern
  import CreditCardPattern
  import TimePattern
  import HtmlTagPattern
  import HashtagPattern
  import CurrencyPattern

  // ---------------------------------------------------------------------
  // find_all_in_text

  /** What `find_all` reports for pattern p over text. */
  function Found(p: Pattern, text: string): seq<string> {
    Texts(text, Spans(p, text))
  }

  /** The dictionary `find_all_in_text(text)` returns: under each of its
      eight keys, the texts `find_all` reports for one validator. */
  function Extraction(text: string): (r: map<string, seq<string>>)
    ensures r.Keys == {"emails", "urls", "phones", "credit_cards", "times", "html_tags", "hashtags", "currency"}
  {
    map[
      "emails" := Found(Email, text),
      "urls" := Found(Url, text),
      "phones" := Found(Phone, text),
      "credit_cards" := Found(CreditCard, text),
      "times" := Found(Time, text),
      "html_tags" := Found(HtmlTag, text),
      "hashtags" := Found(Hashtag, text),
      "currency" := Found(Currency, text)
    ]
  }

  /** `find_all_in_text(text)`: eight of the validators run over the same
      text, each list under its own key. */
  method FindAllInText(text: string) returns (r: map<string, seq<string>>)
    ensures r == Extraction(text)
  {
    var emails := EMAIL.FindAll(text);
    var urls := URL.FindAll(text);
    var phones := PHONE.FindAll(text);
    var cards := CREDIT_CARD.FindAll(text);
    var times := TIME.FindAll(text);
    var tags := HTML_TAG.FindAll(text);
    var hashtags := HASHTAG.FindAll(text);
    var amounts := CURRENCY.FindAll(text);
    r := map[
      "emails" := emails,
      "urls" := urls,
      "phones" := phones,
      "credit_cards" := cards,
      "times" := times,
      "html_tags" := tags,
      "hashtags" := hashtags,
      "currency" := amounts
    ];
  }

  /** Each extracted list is made of pieces of the text in left-to-right
      order that do not overlap. Equal pieces found at different places are
      all kept. */
  lemma ExtractedInOrder(p: Pattern, text: string)
    ensures exists starts, ends :: Pieces(text, Texts(text, Spans(p, text)), starts, ends)
  {
    assert Spans(p, text) == Scan(Engine(p, text), |text|, 0);
    TextsInOrder(Engine(p, text), text);
  }

  /** The phone list holds the whole text or nothing, the text without a
      final newline aside. */
  lemma ExtractedPhones(text: string)
    ensures var phones := Extraction(text)["phones"];
      phones == [] || phones == [text] || (text != "" && text[|text| - 1] == '\n' && phones == [text[..|text| - 1]])
  {
    assert Extraction(text)["phones"] == Found(Phone, text);
    PhonesFound(text);
  }

  /** The texts of the phone pattern's scan: the whole text or nothing, the
      text without a final newline aside. */
  lemma PhonesFound(text: string)
    ensures var phones := Texts(text, Spans(Phone, text));
      phones == [] || phones == [text] || (text != "" && text[|text| - 1] == '\n' && phones == [text[..|text| - 1]])
  {
    PhoneFoundOnce(text);
    WholeTexts(text, Spans(Phone, text));
  }

  /** The texts of at most one span that covers t, or t but a final newline. */
  lemma WholeTexts(t: string, spans: seq<Span>)
    requires |spans| <= 1
    requires |spans| == 1 ==> spans[0].start == 0 && (spans[0].end == |t| || (spans[0].end + 1 == |t| && t[|t| - 1] == '\n'))
    ensures var found := Texts(t, spans);
      found == [] || found == [t] || (t != "" && t[|t| - 1] == '\n' && found == [t[..|t| - 1]])
  {
    if |spans| == 1 {
      assert Texts(t, spans) == [t[spans[0].start..spans[0].end]];
      assert t[0..|t|] == t;
    }
  }

  // ---------------------------------------------------------------------
  // validate_examples

  /** The table `validate_examples` looks each key up in: every validator
      but the combined time pattern. */
  const VALIDATORS: map<string, RegexValidator> := map[
    "email" := EMAIL,
    "url" := URL,
    "phone" := PHONE,
    "credit_card" := CREDIT_CARD,
    "time_24h" := TIME_24H,
    "time_12h" := TIME_12H,
    "html_tag" := HTML_TAG,
    "hashtag" := HASHTAG,
    "currency" := CURRENCY
  ]

  /** `validate_examples(examples)`: for every key the table knows, whether
      each of its values matches that validator as a whole; other keys are
      skipped. */
  method ValidateExamples(examples: map<string, seq<string>>) returns (results: map<string, seq<bool>>)
    ensures results.Keys == examples.Keys * VALIDATORS.Keys
    ensures forall key :: key in results ==> |results[key]| == |examples[key]|
    ensures forall key, i :: key in results && 0 <= i < |results[key]| ==>
      results[key][i] == VALIDATORS[key].IsMatch(examples[key][i])
  {
    results := map[];
    var todo := examples.Keys;
    while todo != {}
      invariant todo <= examples.Keys
      invariant results.Keys == (examples.Keys - todo) * VALIDATORS.Keys
      invariant forall key :: key in results ==> |results[key]| == |examples[key]|
      invariant forall key, i :: key in results && 0 <= i < |results[key]| ==>
        results[key][i] == VALIDATORS[key].IsMatch(examples[key][i])
      decreases todo
    {
      var key :| key in todo;
      todo := todo - {key};
      if key in VALIDATORS {
        var matched := MatchEach(VALIDATORS[key], examples[key]);
        results := results[key := matched];
      }
    }
  }

  /** `[validator.is_match(v) for v in values]`. */
  method MatchEach(validator: RegexValidator, values: seq<string>) returns (matched: seq<bool>)
    ensures |matched| == |values|
    ensures forall j :: 0 <= j < |values| ==> matched[j] == validator.IsMatch(values[j])
  {
    matched := [];
    for i := 0 to |values|
      invariant |matched| == i
      invariant forall j :: 0 <= j < i ==> matched[j] == validator.IsMatch(values[j])
    {
      matched := matched + [validator.IsMatch(values[i])];
    }
  }

  /** The combined time pattern and unknown names get no results. */
  lemma TimeIsNotValidated()
    ensures "time" !in VALIDATORS && forall key :: key in VALIDATORS ==> VALIDATORS[key].name == key
  {
  }

  // ---------------------------------------------------------------------
  // The string tests of get_valid_input

  /** `s.isdigit()`: non-empty and all digits. */
  predicate IsDigits(s: string) {
    |s| > 0 && forall k :: 0 <= k < |s| ==> IsDigit(s[k])
  }

  /** `s.isalpha()`: non-empty and all letters. */
  predicate IsAlpha(s: string) {
    |s| > 0 && forall k :: 0 <= k < |s| ==> IsLetter(s[k])
  }

  /** `any(c.isdigit() for c in s)` */
  predicate HasDigit(s: string) {
    exists k :: 0 <= k < |s| && IsDigit(s[k])
  }

  predicate StartsWith(s: string, prefix: string) {
    |prefix| <= |s| && s[..|prefix|] == prefix
  }

  predicate EndsWith(s: string, suffix: string) {
    |suffix| <= |s| && s[|s| - |suffix|..] == suffix
  }

  /** `s.strip()`: s without its leading and trailing whitespace. The result
      is the one slice of s whose margins are all whitespace and whose own
      ends are not (see StripIsUnique). */
  function Strip(s: string): (r: string)
    ensures |r| <= |s|
    ensures r == "" || (!IsSpace(r[0]) && !IsSpace(r[|r| - 1]))
    ensures exists i, j :: StrippedAt(s, i, j) && r == s[i..j]
  {
    var i := RunEnd(s, 0, Space);
    if i == |s| then
      assert StrippedAt(s, |s|, |s|);
      []
    else
      var j := RunStart(s, |s|, Space);
      assert !In(Space, s[i]);
      assert j > i;
      assert StrippedAt(s, i, j);
      s[i..j]
  }

  /** s[..i] and s[j..] are whitespace. */
  predicate StrippedAt(s: string, i: int, j: int) {
    0 <= i <= j <= |s| && All(s, 0, i, Space) && All(s, j, |s|, Space)
  }

  /** Any slice of s that has only whitespace around it and starts and ends
      with something else is what strip returns. */
  lemma StripIsUnique(s: string, i: int, j: int)
    requires StrippedAt(s, i, j)
    requires i == j || (!IsSpace(s[i]) && !IsSpace(s[j - 1]))
    ensures Strip(s) == s[i..j]
  {
    if i < j {
      assert !In(Space, s[i]) && !In(Space, s[j - 1]);
      assert RunEnd(s, 0, Space) == i;
      assert RunStart(s, |s|, Space) == j;
    } else {
      assert All(s, 0, |s|, Space);
    }
  }

  lemma StripIdempotent(s: string)
    ensures Strip(Strip(s)) == Strip(s)
  {
    var r := Strip(s);
    StripIsUnique(r, 0, |r|);
  }

  /** The checks `get_valid_input` makes of a stripped line before
      accepting it as an input of the given type. An empty line is always
      refused; a type it has no check for takes any other line. */
  predicate Accepts(inputType: string, u: string)
    ensures Accepts(inputType, u) ==> u != ""
    ensures inputType !in CHECKED_TYPES ==> (Accepts(inputType, u) <==> u != "")
  {
    if u == "" then false
    else if inputType == "email" then !(IsDigits(u) || '@' !in u)
    else if inputType == "phone" then !(IsAlpha(u) || !HasDigit(u))
    else if inputType == "url" then
      !(IsDigits(u) || !(StartsWith(u, "http://") || StartsWith(u, "https://") || StartsWith(u, "www.") || '.' in u))
    else if inputType == "credit_card" then !(IsAlpha(u) || !HasDigit(u))
    else if inputType == "html_tag" then StartsWith(u, "<") && EndsWith(u, ">")
    else if inputType == "hashtag" then !(!StartsWith(u, "#") || u == "#")
    else if inputType == "currency" then !(IsAlpha(u) || !(StartsWith(u, "$") || HasDigit(u)))
    else if inputType == "time" then !(IsAlpha(u) || ':' !in u || !HasDigit(u))
    else true
  }

  /** The input types `get_valid_input` has a check for. */
  const CHECKED_TYPES: set<string> :=
    {"email", "phone", "url", "credit_card", "html_tag", "hashtag", "currency", "time"}

  /** What each type asks of a stripped line, once the checks are read
      together (AcceptsIff). */
  predicate Demands(inputType: string, u: string) {
    if inputType == "email" then '@' in u
    else if inputType in {"phone", "credit_card"} then HasDigit(u)
    else if inputType == "url" then StartsWith(u, "http://") || StartsWith(u, "https://") || '.' in u
    else if inputType == "html_tag" then |u| >= 1 && u[0] == '<' && u[|u| - 1] == '>'
    else if inputType == "hashtag" then |u| >= 2 && u[0] == '#'
    else if inputType == "currency" then StartsWith(u, "$") || HasDigit(u)
    else if inputType == "time" then ':' in u && HasDigit(u)
    else u != ""
  }

  /** One pass of `get_valid_input`'s loop on the line the user typed: the
      stripped line if it passes the checks, None where the loop reports an
      error and asks again. What it returns is never empty, has no
      whitespace at either end, and has what its type demands. */
  function ReadInput(inputType: string, line: string): (r: Option<string>)
    ensures r.Some? <==> Demands(inputType, Strip(line))
    ensures r.Some? ==> r.value == Strip(line) && r.value != ""
    ensures r.Some? ==> !IsSpace(r.value[0]) && !IsSpace(r.value[|r.value| - 1])
  {
    var u := Strip(line);
    AcceptsIff(inputType, u);
    if Accepts(inputType, u) then Some(u) else None
  }

  /** What each check comes to: the digit and letter tests that refuse
      all-digit or all-letter lines are implied by the character each
      type requires, so each type asks for one simple thing. */
  lemma AcceptsIff(inputType: string, u: string)
    ensures Accepts(inputType, u) <==> Demands(inputType, u)
  {
    if u != "" {
      if '@' in u {
        var k :| 0 <= k < |u| && u[k] == '@';
        assert !IsDigit(u[k]);
      }
      if HasDigit(u) {
        var k :| 0 <= k < |u| && IsDigit(u[k]);
        assert !IsLetter(u[k]);
      }
      if '.' in u {
        var k :| 0 <= k < |u| && u[k] == '.';
        assert !IsDigit(u[k]);
      }
      if StartsWith(u, "http://") || StartsWith(u, "https://") {
        assert u[0] == "http://"[0];
        assert !IsDigit(u[0]);
      }
      if StartsWith(u, "www.") {
        assert u[3] == "www."[3];
      }
      if StartsWith(u, "$") {
        assert u[0] == '$';
      }
      if inputType == "html_tag" {
        assert StartsWith(u, "<") <==> u[0] == '<';
        assert EndsWith(u, ">") <==> u[|u| - 1] == '>';
      }
      if inputType == "hashtag" {
        assert StartsWith(u, "#") <==> u[0] == '#';
        assert u == "#" <==> |u| == 1 && u[0] == '#';
      }
    }
  }

  // ---------------------------------------------------------------------
  // The checks against the validators

  /** The menu of `prompt_user`: the type each selection asks for and the
      validator it then applies. */
  const MENU: map<string, (string, RegexValidator)> := map[
    "1" := ("email", EMAIL),
    "2" := ("phone", PHONE),
    "3" := ("url", URL),
    "4" := ("credit_card", CREDIT_CARD),
    "5" := ("html_tag", HTML_TAG),
    "6" := ("hashtag", HASHTAG),
    "7" := ("currency", CURRENCY),
    "8" := ("time", TIME)
  ]

  /** A text that matches one of the patterns as a whole neither starts nor
      ends with whitespace. */
  lemma MatchHasNoMargins(p: Pattern, s: string)
    requires Matches(p, s, 0, |s|)
    ensures |s| > 0 && !IsSpace(s[0]) && !IsSpace(s[|s| - 1])
  {
    match p
    case Phone =>
      assert PhonePattern.Parenthesized(s, 0, |s|) || PhonePattern.Dashed(s, 0, |s|);
      assert IsDigit(s[|s| - 1]) by {
        assert In(Digit, s[|s| - 1]);
      }
    case Url =>
      var h :| UrlPattern.Scheme(s, 0, h) && UrlPattern.HostAt(s, h, |s|);
      assert s[0] == s[0..h][0] == 'h';
    case HtmlTag =>
      var n :| HtmlTagPattern.TagSplit(s, 0, n, |s|);
    case Hashtag =>
    case Currency =>
      var a :| CurrencyPattern.Split(s, 0, a, |s|);
    case Time12h =>
      var c :| TimePattern.Hour12(s, 0, c) && TimePattern.Minutes(s, c) && TimePattern.Meridiem(s, c + 3, |s|);
    case _ =>
  }

  /** What a whole match of each menu pattern contains, as its check asks. */
  lemma MatchHasCheckedChars(p: Pattern, s: string)
    requires Matches(p, s, 0, |s|)
    ensures p == Email ==> '@' in s
    ensures p in {Phone, CreditCard} ==> HasDigit(s)
    ensures p == Url ==> StartsWith(s, "http://") || StartsWith(s, "https://")
    ensures p == HtmlTag ==> |s| >= 1 && s[0] == '<' && s[|s| - 1] == '>'
    ensures p == Hashtag ==> |s| >= 2 && s[0] == '#'
    ensures p == Currency ==> StartsWith(s, "$")
    ensures p == Time ==> ':' in s && HasDigit(s)
  {
    match p
    case Email =>
      var a, d :| EmailPattern.Split(s, 0, a, d, |s|);
      assert s[a] == '@';
    case Phone =>
      if PhonePattern.Parenthesized(s, 0, |s|) {
        assert In(Digit, s[1]);
      } else {
        assert In(Digit, s[0]);
      }
    case CreditCard =>
      assert In(Digit, s[0]);
    case Url =>
      var h :| UrlPattern.Scheme(s, 0, h) && UrlPattern.HostAt(s, h, |s|);
      assert s[..h] == s[0..h];
    case HtmlTag =>
      var n :| HtmlTagPattern.TagSplit(s, 0, n, |s|);
    case Currency =>
      var a :| CurrencyPattern.Split(s, 0, a, |s|);
      assert s[..1] == [s[0]];
    case Time =>
      if TimePattern.At24(s, 0, |s|) {
        assert s[|s| - 3] == ':' && IsDigit(s[|s| - 1]);
      } else {
        var c :| TimePattern.Hour12(s, 0, c) && TimePattern.Minutes(s, c) && TimePattern.Meridiem(s, c + 3, |s|);
        assert s[c] == ':' && IsDigit(s[c + 2]);
      }
    case _ =>
  }

  /** `get_valid_input` never refuses what the chosen validator would
      accept: for every menu entry, a line that matches its pattern as a
      whole is returned unchanged. */
  lemma MatchPassesChecks(selection: string, line: string)
    requires selection in MENU && MENU[selection].1.IsMatch(line)
    ensures ReadInput(MENU[selection].0, line) == Some(line)
  {
    var (inputType, validator) := MENU[selection];
    MatchIsStripped(validator.pattern, line);
    MatchIsAccepted(selection, line);
  }

  /** A whole match comes back from strip unchanged. */
  lemma MatchIsStripped(p: Pattern, line: string)
    requires Matches(p, line, 0, |line|)
    ensures Strip(line) == line
  {
    MatchHasNoMargins(p, line);
    StripIsUnique(line, 0, |line|);
    assert line[0..|line|] == line;
  }

  lemma MatchIsAccepted(selection: string, line: string)
    requires selection in MENU && MENU[selection].1.IsMatch(line)
    ensures Accepts(MENU[selection].0, line)
  {
    var (inputType, validator) := MENU[selection];
    MatchHasCheckedChars(validator.pattern, line);
    CheckedCharsAccepted(inputType, validator.pattern, line);
  }

  /** The characters a whole match of a menu pattern contains pass the
      check of the type the menu pairs with it. */
  lemma CheckedCharsAccepted(inputType: string, p: Pattern, s: string)
    requires (inputType, RegexValidator(inputType, p)) in MENU.Values
    requires p == Email ==> '@' in s
    requires p in {Phone, CreditCard} ==> HasDigit(s)
    requires p == Url ==> StartsWith(s, "http://") || StartsWith(s, "https://")
    requires p == HtmlTag ==> |s| >= 1 && s[0] == '<' && s[|s| - 1] == '>'
    requires p == Hashtag ==> |s| >= 2 && s[0] == '#'
    requires p == Currency ==> StartsWith(s, "$")
    requires p == Time ==> ':' in s && HasDigit(s)
    ensures Accepts(inputType, s)
  {
    AcceptsIff(inputType, s);
  }

  /** The checks are far looser than the patterns: "@" passes the email
      check, and "a" passes the check of a type without one. */
  lemma ChecksAreLoose()
    ensures ReadInput("email", " @ ") == Some("@") && !EMAIL.IsMatch("@")
    ensures ReadInput("string", "a") == Some("a")
    ensures ReadInput("email", "  ") == None
  {
    StripIsUnique(" @ ", 1, 2);
    assert " @ "[1..2] == "@";
    StripIsUnique("a", 0, 1);
    assert "a"[0..1] == "a";
    StripIsUnique("  ", 2, 2);
  }
}
