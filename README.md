# Regex_Validator in Dafny

Regex_Validator pulls structured data out of free text with ten fixed
regular expressions: email addresses, URLs, phone numbers, credit-card
numbers, 24-hour, 12-hour and combined times, HTML tags, hashtags and
currency amounts. A frozen `RegexValidator` record pairs a name with a
compiled pattern. It has two operations:

- `is_match` is a whole-string match (`fullmatch`).
- `find_all` reports the text of every match that `finditer` finds,
  scanning left to right.

On top of these, `find_all_in_text` runs eight validators over one text.
`validate_examples` checks lists of sample strings against the validator
named by each key. `get_valid_input` strips a line the user typed and runs
a cheap per-type plausibility check before the line is handed to a
validator.

The model has these parts:

- **Chars**: the ASCII character classes (`\d`, `\s`, `\w`, the classes
  of the patterns) and `\b`. It also has runs of a class: `All`, `RunEnd`,
  `RunStart`.
- **One module per pattern** (EmailPattern, UrlPattern, PhonePattern,
  CreditCardPattern, TimePattern, HtmlTagPattern, HashtagPattern,
  CurrencyPattern). Each module has three things:
  - `At(t, i, e)`, a ghost predicate. It holds when the pattern matches
    `t[i..e]`, with its anchors judged against the whole text `t`. It is
    written as a split of the range into the parts of the regex.
  - A compiled `FullMatch`, proved equal to `At(s, 0, |s|)`.
  - A compiled `MatchAt(t, i)`. It gives the end of the match that the
    engine finds at position `i`, and is proved to be the longest match
    there. The combined time pattern is the exception: it is proved to
    take its 24-hour alternative first.
- **Scanner**: the `finditer` scan over any matcher that never matches
  the empty string. It is a recursive specification `Scan`, a
  characterization `IsScan` that the scan is the unique solution of, and
  the loop `Collect` that `find_all` runs.
- **RegexPatterns**: the `Pattern` datatype of the ten patterns, the
  record `RegexValidator` with `FindAll` and `IsMatch`, and the ten
  public validators. It holds the results that connect a pattern's
  language to what `find_all` and `is_match` report.
- **Extractors**:
  - `find_all_in_text` as the map `Extraction` and the method
    `FindAllInText`.
  - `validate_examples` as a method with a loop.
  - One pass of `get_valid_input`'s checks, as `Strip`, `Accepts` and
    `ReadInput`.
- **PatternCases**: accept and reject examples for every pattern, and
  extraction examples for email and time, each proved as a lemma about the model.

## Model

The proofs that carry the model are Scanner.ScanIsUnique (the scan is the one list that meets the `finditer` description), the UrlPattern host lemmas (HostFrom, WholeHostSound, WholeHostComplete, LabelsIsDotted) and the CurrencyPattern group lemmas (GroupsIsShape, GroupedMatch). The PatternCases lemmas only evaluate the model on literal inputs; they need hints to guide the solver, but they establish no general property.

| member | source | states |
|---|---|---|
| Chars.RunEnd | core/regex_patterns.py:27 | the end of the longest run of a class starting at i: every character before it is in the class, the one at it is not |
| Chars.RunStart | core/regex_patterns.py:30 | the start of the longest run of a class ending at j, in the same terms |
| Chars.SliceBoundaries | core/regex_patterns.py:26 | read on its own, a slice has `\b` at its start iff it starts with a word character, and at its end iff it ends with one |
| EmailPattern.FullMatch | core/regex_patterns.py:25-32 | `EMAIL.is_match` holds iff the text is local part (non-empty, over [A-Za-z0-9._%+-], first character a word character), '@', domain (non-empty, over [A-Za-z0-9.-]), '.', and at least two letters |
| EmailPattern.FullSplitFollowsRuns | core/regex_patterns.py:25-32 | in a whole-text match the '@' ends the longest local-part run, and the '.' is the one just before the final run of letters |
| EmailPattern.LastTld | core/regex_patterns.py:29-31 | in a window of the domain class, the last end at which a dot plus at least two letters plus `\b` can finish, and no later one exists |
| EmailPattern.MatchAt | core/regex_patterns.py:25-32 | the match found at i is a match of the pattern and ends no earlier than any other match at i |
| EmailPattern.SliceMatches | core/regex_patterns.py:16-32 | a match inside a text, read on its own, passes `is_match` iff its first character is a word character |
| UrlPattern.SchemeEnd | core/regex_patterns.py:37 | `https?://` matches from i to h exactly when the answer is h |
| UrlPattern.LabelsIsDotted | core/regex_patterns.py:38 | one or more `[A-Za-z0-9-]+\.` labels match t[j..k] iff that range is over [A-Za-z0-9.-], ends in a dot, and neither starts with a dot nor has two dots in a row |
| UrlPattern.WholeHostSound | core/regex_patterns.py:35-41 | after the scheme, labels up to the final letter run, a TLD of at least two letters, and an optional '/' path ending in a word character make a whole-text match |
| UrlPattern.WholeHostComplete | core/regex_patterns.py:35-41 | every whole-text match has that shape |
| UrlPattern.FullMatch | core/regex_patterns.py:35-41 | `URL.is_match` holds iff the text is a scheme, labels, a TLD and an optional path, with `\b` at both ends |
| UrlPattern.HostFrom | core/regex_patterns.py:38-40 | the longest match of host, TLD, path and `\b` starting at j, if there is one |
| UrlPattern.MatchAt | core/regex_patterns.py:35-41 | the match found at i is a match and ends no earlier than any other |
| UrlPattern.LongestEndsWithWord | core/regex_patterns.py:39-40 | the longest match at i ends in a word character, since otherwise the word run after it would extend it |
| UrlPattern.SliceMatches | core/regex_patterns.py:16-41 | a match ending in a word character, read on its own, passes `is_match` |
| PhonePattern.FullMatch | core/regex_patterns.py:44 | `PHONE.is_match` holds iff the text is "(ddd)", any whitespace, ddd, [-.], dddd; or ddd[-.]ddd[-.]dddd with the two separators chosen independently |
| PhonePattern.MatchAt | core/regex_patterns.py:44 | the answer at i is Some(e) exactly for the match ending at e |
| PhonePattern.SliceMatches | core/regex_patterns.py:16-44 | a match, read on its own, passes `is_match` |
| CreditCardPattern.BodyIsCardShape | core/regex_patterns.py:49 | `\d{4}(?:[ -]\d{4}){3}` matches t[i..e] iff e = i+19, with digits at offsets 0-3, 5-8, 10-13 and 15-18, and a space or hyphen at each of 4, 9 and 14 independently |
| CreditCardPattern.FullMatch | core/regex_patterns.py:47-51 | `CREDIT_CARD.is_match` holds iff the text is that 19-character shape |
| CreditCardPattern.MatchAt | core/regex_patterns.py:47-51 | the answer at i is Some(e) exactly for the match ending at e |
| CreditCardPattern.SliceMatches | core/regex_patterns.py:16-51 | a match, read on its own, passes `is_match` |
| TimePattern.Hour24IsValue | core/regex_patterns.py:54 | the 24-hour hour alternation matches one or two digits iff their value is at most 23 |
| TimePattern.Hour12IsValue | core/regex_patterns.py:55 | the 12-hour hour alternation matches one or two digits iff their value is 1 to 12 |
| TimePattern.MinutesIsValue | core/regex_patterns.py:54-55 | `:[0-5]\d` matches iff a colon is followed by two digits of value at most 59 |
| TimePattern.FullMatch24 | core/regex_patterns.py:54 | `TIME_24H.is_match` holds iff the text is H:MM or HH:MM with hour 0-23 and minute 00-59 |
| TimePattern.FullMatch12 | core/regex_patterns.py:55 | `TIME_12H.is_match` holds iff the text is a 12-hour clock time, with at most one whitespace character before [APap][Mm] |
| TimePattern.FullMatch | core/regex_patterns.py:56-58 | the combined pattern matches a whole text iff either alternative does |
| TimePattern.MatchAt24 | core/regex_patterns.py:54 | the answer at i is Some(e) exactly for the 24-hour match ending at e |
| TimePattern.MatchAt12 | core/regex_patterns.py:55 | the answer at i is Some(e) exactly for the 12-hour match ending at e |
| TimePattern.MatchAt | core/regex_patterns.py:57 | the combined pattern finds the 24-hour match when there is one, and otherwise the 12-hour match |
| TimePattern.SliceMatches24 | core/regex_patterns.py:16-54 | a 24-hour match, read on its own, passes `is_match` |
| TimePattern.SliceMatches12 | core/regex_patterns.py:16-55 | a 12-hour match, read on its own, passes `is_match` |
| HtmlTagPattern.AttributesIff | core/regex_patterns.py:61 | the optional `\s+[^<>]*?` group matches t[n..j] iff it starts with whitespace and holds no angle bracket |
| HtmlTagPattern.FullMatch | core/regex_patterns.py:61 | `HTML_TAG.is_match` holds iff the text is '<', a letter, [A-Za-z0-9-]*, optionally a whitespace character and non-angle characters, then '>' |
| HtmlTagPattern.MatchAt | core/regex_patterns.py:61 | the answer at i is Some(e) exactly for the match ending at e: the lazy group stops at the first '>' |
| HtmlTagPattern.SliceMatches | core/regex_patterns.py:16-61 | a match, read on its own, passes `is_match` |
| HashtagPattern.FullMatch | core/regex_patterns.py:64 | `HASHTAG.is_match` holds iff the text is '#' followed by one or more word characters |
| HashtagPattern.MatchAt | core/regex_patterns.py:64 | the answer at i is Some(e) exactly for the match ending at e |
| HashtagPattern.SliceMatches | core/regex_patterns.py:16-64 | a match, read on its own, passes `is_match` |
| CurrencyPattern.GroupsIsShape | core/regex_patterns.py:70 | one or more `,\d{3}` groups match t[b..a] iff the range is a positive multiple of four long, with a comma at every fourth place and digits elsewhere |
| CurrencyPattern.IsAmountIff | core/regex_patterns.py:69-73 | the compiled test for the amount agrees with the grouped-or-plain alternation |
| CurrencyPattern.FullMatch | core/regex_patterns.py:67-76 | `CURRENCY.is_match` holds iff the text is '$', then 1-3 digits and one or more ",ddd" groups or one or more plain digits, then an optional ".dd", with `\b` at the end |
| CurrencyPattern.GroupsEnd | core/regex_patterns.py:70 | the end of the longest run of comma groups from b |
| CurrencyPattern.GroupedMatch | core/regex_patterns.py:70-75 | the longest grouped match, cents and `\b` included, over every way of ending the groups |
| CurrencyPattern.AtBranches | core/regex_patterns.py:67-76 | every match is the plain branch with the whole digit run, or the grouped branch starting with 1-3 digits |
| CurrencyPattern.MatchAt | core/regex_patterns.py:67-76 | the match found at i is a match and ends no earlier than any other |
| CurrencyPattern.SliceMatches | core/regex_patterns.py:16-76 | a match, read on its own, passes `is_match` |
| RegexPatterns.MatchAt | core/regex_patterns.py:16 | one step of `finditer`: the end of the match the engine finds at i, if any; a match found is non-empty and inside the text (MatchAtIsChosen says which match it is) |
| RegexPatterns.Spans | core/regex_patterns.py:16 | the spans `finditer` reports: each non-empty and inside the text, each starting at or after the end of the one before (SpansCharacterized says which spans they are) |
| RegexPatterns.MatchAtIsChosen | core/regex_patterns.py:16 | the engine finds a match at i iff the pattern has one there, and the one it finds is the chosen one: the longest, or the 24-hour alternative first for the combined time pattern |
| RegexPatterns.FullMatch | core/regex_patterns.py:21 | `fullmatch` succeeds iff the pattern's language holds for the whole text |
| RegexPatterns.FindIterIsScan | core/regex_patterns.py:16 | the finditer description (chosen matches, in order, no overlap, no match at an uncovered position) is exactly the scan of the engine |
| RegexPatterns.SpansCharacterized | core/regex_patterns.py:16 | the spans `finditer` reports are the one list that meets that description |
| RegexPatterns.ChosenSliceMatches | core/regex_patterns.py:16-21 | a chosen match passes `fullmatch` on its own; for email exactly when it starts with a word character |
| RegexPatterns.FoundTextsMatch | core/regex_patterns.py:13-21 | every text `find_all` reports passes `is_match` of the same validator, except email texts that do not start with a word character |
| RegexPatterns.FullMatchIsFound | core/regex_patterns.py:13-21 | a text that matches whole is found whole by `find_all`, for every pattern but the combined time pattern |
| RegexPatterns.PhoneFoundOnce | core/regex_patterns.py:44 | the phone scan has at most one span: the whole text, or the text without its final newline |
| RegexPatterns.RegexValidator.FindAll | core/regex_patterns.py:13-16 | `find_all` returns the texts of the `finditer` spans, in order |
| RegexPatterns.RegexValidator.IsMatch | core/regex_patterns.py:18-21 | `is_match` holds iff the whole text is in the pattern's language |
| Scanner.Scan | core/regex_patterns.py:16 | every span reported is a non-empty match of the matcher inside the text, and later spans start at or after the end of earlier ones |
| Scanner.ScanIsScan | core/regex_patterns.py:16 | the scan reports matches only, in order, with no match at any position it skips |
| Scanner.ScanIsUnique | core/regex_patterns.py:16 | any list with those properties is the scan |
| Scanner.ScanCharacterized | core/regex_patterns.py:16 | a list has those properties iff it is the scan from position 0 |
| Scanner.ScanWhole | core/regex_patterns.py:16 | a match of the whole text at 0 is the only span |
| Scanner.ScanFromZeroOnly | core/regex_patterns.py:16 | a matcher that matches only at 0 yields at most one span |
| Scanner.Texts | core/regex_patterns.py:16 | one text per span, each the slice the span covers |
| Scanner.TextsInOrder | core/regex_patterns.py:16 | the texts found are contiguous pieces of the text, left to right, not overlapping, duplicates kept |
| Scanner.Collect | core/regex_patterns.py:16 | the cursor loop of `finditer` collects exactly the texts of the scan |
| Extractors.Extraction | core/extractors.py:33-43 | the result has exactly the keys emails, urls, phones, credit_cards, times, html_tags, hashtags and currency |
| Extractors.FindAllInText | core/extractors.py:33-43 | `find_all_in_text` returns that map, each key holding one validator's `find_all` |
| Extractors.ExtractedInOrder | core/extractors.py:33-43 | every extracted list is made of contiguous pieces of the text in left-to-right order, not overlapping |
| Extractors.ExtractedPhones | core/extractors.py:37 | the phones entry is empty, the whole text, or the text without its final newline |
| Extractors.ValidateExamples | core/extractors.py:46-63 | the result keeps exactly the input keys among the nine names of the table at core/extractors.py:49-59 (Extractors.VALIDATORS); each list has the input's length and order, and element i is `is_match` of value i |
| Extractors.MatchEach | core/extractors.py:62 | the list comprehension: same length, element j is `is_match(values[j])` |
| Extractors.TimeIsNotValidated | core/extractors.py:49-59 | "time" is not a key of the table, and each table entry is the validator of that name |
| Extractors.Strip | core/extractors.py:69 | `str.strip`: the result has no whitespace at either end and is the slice of the input between its leading and trailing whitespace |
| Extractors.StripIsUnique | core/extractors.py:69 | any slice with only whitespace around it and none at its ends is the stripped text |
| Extractors.StripIdempotent | core/extractors.py:69 | stripping twice is stripping once |
| Extractors.Accepts | core/extractors.py:70-112 | the checks of `get_valid_input`, branch by branch: they never take an empty line, and a type with no check of its own (outside the eight checked types) takes every other line |
| Extractors.ReadInput | core/extractors.py:69-114 | one pass returns something iff the stripped line has what its type demands (`Demands`, the plain form of the checks); what it returns is the stripped line, non-empty and with no whitespace at either end |
| Extractors.AcceptsIff | core/extractors.py:70-112 | the checks hold iff `Demands` does, which says what each check comes to: email needs '@'; phone and credit card a digit; url "http://", "https://" or a '.'; html_tag a leading '<' and trailing '>'; hashtag a leading '#' and more; currency '$' first or a digit; time ':' and a digit; any other type a non-empty line |
| Extractors.MatchHasNoMargins | core/regex_patterns.py:25-76 | a whole-text match of any pattern is non-empty and has no whitespace at either end |
| Extractors.MatchHasCheckedChars | core/extractors.py:74-112 | a whole-text match of each pattern has the characters its type's check asks for |
| Extractors.MatchIsStripped | core/extractors.py:69 | stripping leaves a whole-text match unchanged |
| Extractors.MatchPassesChecks | core/extractors.py:159-171 | for every entry of the menu at core/extractors.py:159-168 (Extractors.MENU), a line its validator accepts is returned unchanged by the checks of the type the menu asks for |
| Extractors.ChecksAreLoose | core/extractors.py:70-112 | the checks let through what the validator refuses (" @ " as an email), take any non-empty line of an unknown type, and refuse a blank line |
| PatternCases.EmailAccepts | core/regex_patterns.py:25-32 | "a@b.com" is an email |
| PatternCases.EmailRejects | core/regex_patterns.py:25-32 | "a@.com", "a@b.c" and ".a@b.com" are not |
| PatternCases.LongEmailAccepted | core/regex_patterns.py:25-32 | "first.last+tag@mail.example.org" is an email |
| PatternCases.PlainUrlAccepted | core/regex_patterns.py:35-41 | "https://example.com" is a URL |
| PatternCases.PathUrlAccepted | core/regex_patterns.py:35-41 | "http://a.b.org/p" is a URL |
| PatternCases.SlashUrlRejected | core/regex_patterns.py:39-40 | "https://example.com/" is not, because it ends in '/' |
| PatternCases.DotlessUrlRejected | core/regex_patterns.py:38 | "http://localhost" is not, because it has no dotted label |
| PatternCases.PhoneAcceptsMixedSeparators | core/regex_patterns.py:44 | "123-456.7890" is a phone number |
| PatternCases.PhoneAcceptsParenthesized | core/regex_patterns.py:44 | "(123)   456.7890" is a phone number |
| PatternCases.PhoneRejects | core/regex_patterns.py:44 | "1234567890" is not |
| PatternCases.CreditCardAccepts | core/regex_patterns.py:47-51 | "1234-5678 9012-3456", with mixed separators, is a card number |
| PatternCases.CreditCardRejects | core/regex_patterns.py:47-51 | sixteen digits with no separators are not |
| PatternCases.Time24hAccepts | core/regex_patterns.py:54 | "00:00", "9:05" and "23:59" are 24-hour times |
| PatternCases.Time24hRejects | core/regex_patterns.py:54 | "24:00" is not |
| PatternCases.Time12hAcceptsSpaced | core/regex_patterns.py:55 | "11:59 PM" is a 12-hour time |
| PatternCases.Time12hAcceptsJoined | core/regex_patterns.py:55 | "09:30am" is a 12-hour time |
| PatternCases.Time12hRejects | core/regex_patterns.py:55 | "13:00 PM", "0:30 AM" and "00:30 AM" are not |
| PatternCases.TimeAccepts | core/regex_patterns.py:56-58 | the combined pattern accepts both "23:59" and "11:59 PM" |
| PatternCases.HtmlTagAcceptsName | core/regex_patterns.py:61 | "<div >" is a tag |
| PatternCases.HtmlTagAcceptsAttribute | core/regex_patterns.py:61 | `<p class="x">` is a tag |
| PatternCases.HtmlTagRejects | core/regex_patterns.py:61 | "</div>", "<br/>" and "<a><b>" are not |
| PatternCases.HashtagAccepts | core/regex_patterns.py:64 | "#go" and "#123test" are hashtags |
| PatternCases.HashtagRejects | core/regex_patterns.py:64 | "#" is not |
| PatternCases.CurrencyAccepts | core/regex_patterns.py:67-76 | "$1,234.56" and "$1234" are amounts |
| PatternCases.CurrencyRejects | core/regex_patterns.py:67-76 | "$12,34" and "$.50" are not |
| PatternCases.CurrencyGroupingRejects | core/regex_patterns.py:67-76 | "$1,234.5" and "$1,2345" are not |
| PatternCases.TimeSpacedSuffix | core/regex_patterns.py:57 | in "11:59 PM" the combined pattern finds only "11:59", though the whole text matches |
| PatternCases.TimeJoinedSuffix | core/regex_patterns.py:57 | in "11:59PM" it finds "11:59PM" |
| PatternCases.RunOnSpans | core/regex_patterns.py:16-32 | in "x@y.com.b@c.com" the email scan finds [0, 7) and then [7, 15) |
| PatternCases.RunOnSecondRejected | core/regex_patterns.py:26 | the second text found, ".b@c.com", fails `EMAIL.is_match` |
| PatternCases.SentenceSpans | core/extractors.py:35 | in "contact me at a@b.com please" the email scan finds only [14, 21) |
| PatternCases.SentenceEmails | core/extractors.py:35 | so the emails found are exactly ["a@b.com"] |
| PatternCases.SentenceIsNoAddress | core/regex_patterns.py:18-21 | while the whole sentence fails `EMAIL.is_match` |

## Left out

- Unicode: `\d`, `\s`, `\w` and `\b` are modelled over ASCII only. Python's `str` patterns use Unicode classes, so "#abcé" finds "#abc" here but nothing in Python, where `\b` fails between 'c' and 'é'. `\s` includes the ASCII separators 0x1C-0x1F, as in Python.
- Extractors.Strip, Extractors.Accepts: `str.strip`, `str.isdigit` and `str.isalpha` are modelled over ASCII only, for the same reason.
- The type checks with `isinstance` in `find_all` and `is_match` (core/regex_patterns.py:14-15, 19-20) are left out. Dafny's types make them vacuous.
- Compiling the patterns with `re.compile` is not modelled; the patterns are fixed.
- Python's `re` engine is not modelled. Each pattern is a language with a hand-written matcher. Each `MatchAt` is written in the order the engine tries the alternatives. For every pattern but the combined time pattern, that order reaches the longest match, and the model proves its matcher finds the longest match. It does not derive this from a model of backtracking.
- `clear_screen`, `print_banner` and `prompt_user` are terminal I/O and are not modelled. Only `prompt_user`'s menu table is modelled, as Extractors.MENU.
- `get_valid_input` is modelled as one pass of its loop, Extractors.ReadInput. Reading a line, the error messages, asking again, and the KeyboardInterrupt and exception handlers are I/O and are left out.
- main.py is only an entry point that calls `prompt_user`; it is not part of this model.
- Extractors.ValidateExamples, Extractors.Extraction, Extractors.FindAllInText: the results are Dafny `map`s, so the key insertion order of Python's dicts is not modelled.
- RegexPatterns.FoundTextsMatch: an email found inside a text does not always pass `is_match` on its own. The leading `\b` can be satisfied by the character before the match, so ".b@c.com" is found in "x@y.com.b@c.com" but is not a valid email. The lemma states the exact condition, not an unconditional re-validation.
- The model follows the regexes as written, not their comments:
  - The comment at core/regex_patterns.py:49 asks for a uniform separator, but each `[ -]` is chosen independently.
  - The two `[-.]` of the phone pattern are independent.
  - `<br/>` is not an HTML tag, because the attribute group must start with whitespace.
  - The combined time pattern takes the first alternative that matches, not the longest.
