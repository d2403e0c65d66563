# Moderation rules of the NHS website review API, modelled in Dafny

The NHS website lets the public review a service. Before a review is
published, its title and its comment body pass through a set of "hard
rules". Each rule looks at the text and returns a code:

- 0: passed;
- 1: failed;
- 2: a human moderator must look at it.

Each rule also returns its evidence: the shouting words, the e-mail
addresses, the URLs, the profane words, the names, the descriptions of
people, the safeguarding grade, and so on. The `HardRules` object runs all
the rules on one comment and returns a report with a line for every rule that
did not pass.

This project models those rules and the object that runs them. It proves what
each rule reports and when it fails. It also proves what the report contains.

| file | module | models |
|---|---|---|
| `outcome.dfy` | `Outcome` | exceptions as `Result`/`Error`, a `str`-or-not argument, the `(code, values)` verdict |
| `seqs.dfy`, `sorting.dfy`, `pystr.dfy` | `Seqs`, `Sorting`, `PyStr` | the Python list and `str` operations the rules use: comprehensions, `list.remove`, `list(set(...))`, `sort`, `lower`, `strip`, `replace`, `split`, `join` |
| `config.dfy` | `Config` | the thresholds and the word lists |
| `nlp.dfy` | `Nlp` | the processed document and the URL matcher's hits |
| `common_functions.dfy` | `CommonFunctions` | `clean_api_key`, `correct_url_format`, `result_code_mappers`, `format_output_text`, `isEnglish` |
| `services.dfy` | `Services` | reading an endpoint and key from the environment, calling a remote model, `int(...)` |
| `allcaps.dfy` … `not_experience_rule.dfy` | one module per rule | the ten rules |
| `names_helpers.dfy` | `NamesHelpers` | the list filters of the names rule, with the in-place list as a class |
| `hardrules.dfy` | `Moderation` | the `HardRules` class: its constructor, `apply` and the report |

**Imperative versus pure code.** Code that updates variables in a loop is
modelled as a `method` with loop invariants. Each such method is proved to
return the value of a specification function, and the properties are proved
about that function. The pure helpers are functions. The object that keeps
each rule's result in its fields is a class, and so is the list that
`allow_name_signoff` changes in place.

**External dependencies.** Everything the code consults outside the comment
is a parameter of the model. The `World` datatype in `hardrules.dfy` bundles:

- the spaCy tokeniser and URL matcher;
- the URL regular expression;
- `fuzz.partial_ratio`;
- the order in which the interpreter lists a set;
- the environment and the word lists;
- the five remote models.

A remote model is a function from a request (URL, cleaned key, payload) to a
decoded reply or a failure.

**Exceptions.** A Python exception becomes `Err(e)`. The nine rules of `apply`
are run in dispatch order. The first one that fails ends the pass with its
error, and no result is stored.

**Where the documentation and the code disagree, the model follows the code:**

- The all-caps docstring (`src/modules/allcaps.py`) and the threshold comment
  (`src/config.py`) say more than three shouting words fail a review. The code
  fails it at three (`>= ALL_CAPS_THRESHOLD`).
- `safeguarding_rule` reads the grade (`"0"`) before the confidence (`"1"`).
  A reply without a grade therefore fails with `KeyError("0")`, whatever else
  it holds.
- A comment body over sixty characters whose only characters are spaces,
  commas and full stops makes `allow_name_signoff` index an empty list. That
  `IndexError` aborts the whole pass. The model keeps this behaviour
  (`Names.NamesRuleErrors`).

## Model

| member | source | states |
|---|---|---|
| Moderation.HardRules.constructor | src/hardrules.py:37-50 | the body is the processed comment: its text is the comment itself and its tokens are the tokeniser's. The organisation is kept, and the words are the tokens lower-cased one by one |
| Moderation.HardRules.Apply | src/hardrules.py:52-157 | the returned report is `ApplySpec` of the state before the call. On success, each result field holds that rule's result, and `results` holds the report. On failure nothing changes. The body, organisation and words never change |
| Moderation.HardRules.Store | src/hardrules.py:87-97 | after the call the ten result fields and `results` hold exactly the given values, and the body, organisation and words are unchanged |
| Moderation.HardRules.StoreFindings | src/hardrules.py:87-96 | the fields of the rules that report what they found hold the given results |
| Moderation.HardRules.StoreAnswers | src/hardrules.py:93-156 | the fields of the rules that ask a model hold the given results, and `results` holds the report |
| Moderation.RunAll | src/hardrules.py:60-85 | running the nine rules in dispatch order gives exactly `RunRules`: the first error, or all nine results |
| Moderation.RunRules | src/hardrules.py:60-97 | on success, each of the nine results is what its rule returns as dispatched. All-caps and URL get the document. Names and e-mail get its text. Descriptor, safeguarding, complaint, soft profanity and not-an-experience get the lower-cased text. The results are well formed: evidence-based codes, a concern code matching the grade, and one-item answers with code 0 or 1 |
| Moderation.ApplyFails | src/hardrules.py:60-85 | the pass fails exactly when the names, descriptor, safeguarding, complaint or not-an-experience rule fails. A names failure is the error reported |
| Moderation.AllEntries | src/hardrules.py:99-154 | the report has ten lines, one per rule, in report order |
| Moderation.KeysDistinct | src/hardrules.py:103-149 | no two rules share a report key |
| Moderation.EntryLines | src/hardrules.py:99-154 | every line built from well-formed results is a good line: a flagged line has code 1 or 2 and evidence, code 2 occurs only for all-caps and safeguarding, and only the safeguarding line has a probability |
| Moderation.FlaggedLines | src/hardrules.py:156 | every kept line is flagged, is a good line, and has a code that `result_code_mappers` accepts |
| Moderation.FlaggedLine | src/hardrules.py:156 | the report has a line for a rule if and only if that rule's entry has a code of at least 1 |
| Moderation.ReportLines | src/hardrules.py:99-157 | a successful report has id `"ids"` and at most ten lines. Each line has code 1 or 2, is accepted by the code mapper, carries evidence, has code 2 only for all-caps or safeguarding, and has a probability only for safeguarding |
| Moderation.ReportedFindings | src/hardrules.py:102-116 | the all-caps, e-mail and URL lines are present if and only if the rule found something |
| Moderation.ReportedWords | src/hardrules.py:117-136 | the hard-profanity, soft-profanity, names and descriptor lines are present if and only if the rule found something |
| Moderation.ReportedAnswers | src/hardrules.py:137-152 | the safeguarding line is present if and only if the grade is "Possibly" or "Strongly Concerning"; the complaint and not-an-experience lines if and only if the model answered 1 |
| Moderation.ReportedRules | src/hardrules.py:52-157 | for a whole pass, each of the ten rules is reported if and only if it did not pass. For the all-caps, e-mail, URL and hard-profanity rules this is stated on the document and the words themselves: shouting words, addresses, URLs, listed words. For the soft-profanity and descriptor rules it is stated on their verdict for the lower-cased text. A title is never reported as not an experience |
| Moderation.SoftLineHits | src/hardrules.py:122-126 | when the soft verdict de-duplicates some hits through an exact set listing, its line is present if and only if there are hits |
| Moderation.ReportedSoftHits | src/hardrules.py:72-76 | with an exact set listing, the soft-profanity line is present if and only if some soft-lexicon entry occurs as a whole word of the lower-cased comment |
| Moderation.DescriptorLinePairs | src/hardrules.py:132-136 | when the descriptor verdict scores what some pairs give, its line is present if and only if one pair has a listed adjective and a listed noun |
| Moderation.ReportedDescriptions | src/hardrules.py:69 | when the descriptions model answers with some pairs, the descriptor line is present if and only if one of them has a listed adjective and a listed noun |
| Moderation.FilterKeepsReportOrder | src/hardrules.py:156 | keeping only the flagged lines keeps their relative order |
| Moderation.ReportOrder | src/hardrules.py:99-157 | the lines of a report follow the fixed order of the ten rules (all-caps first, not-an-experience last), and no rule has two lines |
| AllCaps.CapsWords | src/modules/allcaps.py:23-28 | the shouting words are exactly the tokens that are upper case, longer than one character and not acronyms; there are never more of them than tokens |
| AllCaps.CapsWordsMultiplicity | src/modules/allcaps.py:26-28 | a shouting token is listed as often as it occurs, and nothing else is listed |
| AllCaps.CapsWordsAppend | src/modules/allcaps.py:26-28 | the shouting words of two token lists joined are those of each, in order |
| AllCaps.CapsCode | src/modules/allcaps.py:32-37 | the code is 1 if and only if there are at least three shouting words, 2 if and only if there are one or two, and 0 if and only if there are none |
| AllCaps.AllCapsRule | src/modules/allcaps.py:8-37 | returns the shouting words in token order, their number, and the code for that number |
| AllCaps.AllCapsOneWord | src/modules/allcaps.py:27-35 | one shouting word among ordinary ones is listed and sent for review (code 2) |
| AllCaps.AllCapsAcronymsPass | src/modules/allcaps.py:27 | an upper-case acronym on the list is not counted |
| EmailRule.RunEnd | src/modules/email_rule.py:24 | a greedy character-class run: every character up to the end is in the class, and the one at the end is not |
| EmailRule.DotSearch | src/modules/email_rule.py:24 | backtracking the domain finds a dot followed by two or more letters that are not followed by a letter |
| EmailRule.MatchAt | src/modules/email_rule.py:24-25 | a match found at a position starts there and is an address span: local part, `@`, domain, `.`, then a top-level part of two or more letters that cannot be extended |
| EmailRule.FindAllSpans | src/modules/email_rule.py:25 | every reported span lies within the text, after the scan's start |
| EmailRule.FindAllSpansStep | src/modules/email_rule.py:25 | a match is reported and the scan resumes at its end; otherwise the scan moves on one character |
| EmailRule.FindAllSpansAreMatches | src/modules/email_rule.py:25 | every reported span is the pattern's match at its start |
| EmailRule.FindAllSpansOrdered | src/modules/email_rule.py:25 | the reported spans are left to right and do not overlap |
| EmailRule.FindAllSpansSkipsNoMatch | src/modules/email_rule.py:25 | there is no match before the first reported span |
| EmailRule.FindAllSpansSkipsNoMatchBetween | src/modules/email_rule.py:25 | there is no match in the gap between two consecutive reported spans |
| EmailRule.NoMatchAt | src/modules/email_rule.py:25 | a skipped stretch has no match at any of its positions |
| EmailRule.NoMatchInGap | src/modules/email_rule.py:25 | a gap between reported spans has no match at any of its positions |
| EmailRule.FindAll | src/modules/email_rule.py:24-25 | `re.findall` returns one address per reported span, the text of that span |
| EmailRule.CheckEmailRule | src/modules/email_rule.py:8-30 | a non-string argument is an `AssertionError`. A string gives the addresses found, with code 1 if and only if there are some |
| EmailRule.BracketedSpans | src/modules/email_rule.py:24-25 | in `[jo@nhs.uk].` the only span is the address inside the brackets |
| EmailRule.EmailExample | src/modules/email_rule.py:8-30 | `[jo@nhs.uk].` fails with the evidence `jo@nhs.uk` |
| UrlRule.KeptUrls | src/modules/url_rule.py:64-69 | a text is kept if and only if it comes from a `URL` hit that is not one of the exceptions; there are never more texts than hits |
| UrlRule.VerifyUrlRule | src/modules/url_rule.py:46-71 | the kept URL texts in matcher order, scored 1 if and only if there are some |
| UrlRule.FindMatchForUrlRule | src/modules/url_rule.py:17-43 | the regex's findings for a string, scored 1 if and only if there are some; a non-string scores 0 with no evidence |
| UrlRule.CheckUrlRule | src/modules/url_rule.py:74-94 | when the matcher reports a URL, its texts are the evidence; otherwise the regex's findings are. The score is 1 if and only if there is evidence |
| UrlRule.NothingKept | src/modules/url_rule.py:64-69 | without a reportable hit nothing is kept |
| UrlRule.CheckUrlRuleEvidence | src/modules/url_rule.py:89-94 | every reported text is a non-exception matcher hit or a regex finding |
| UrlRule.ExceptionsAreNotReported | src/modules/url_rule.py:14 | the two exception spans and a non-URL hit report nothing |
| Profanity.DedupVerdict | src/modules/profanity.py:27-43 | the deduplicated hits, with code 1 if and only if there are some |
| Profanity.DedupVerdictExact | src/modules/profanity.py:27-35 | with an exact set listing, every hit is listed once and nothing else is |
| Profanity.LexiconHits | src/modules/profanity.py:29-33 | every hit is a lower-cased lexicon entry that is one of the words, and every such entry is a hit |
| Profanity.ProfanityRule | src/modules/profanity.py:13-43 | the code is 1 if and only if some word was found |
| Profanity.ProfanityRuleExact | src/modules/profanity.py:27-43 | the reported words are exactly the lower-cased lexicon entries among the tokens, each once |
| Profanity.ProfanityExamples | src/modules/profanity.py:27-43 | a clean comment passes; one containing a listed word (in another case) reports that word alone |
| ProfanitySoft.SearchWholeWord | src/modules/profanity_soft.py:26-27 | the search succeeds if and only if the pattern occurs between two word boundaries at some position |
| ProfanitySoft.SoftHits | src/modules/profanity_soft.py:25-28 | an entry's lower-cased form is a hit if and only if its stripped pattern occurs as a whole word |
| ProfanitySoft.ProfanityRuleSoftSpec | src/modules/profanity_soft.py:8-37 | a non-string argument is an `AssertionError`, and nothing else is; the code is 1 if and only if something was found |
| ProfanitySoft.ProfanityRuleSoft | src/modules/profanity_soft.py:8-37 | the loop over the lexicon and the set deduplication give `ProfanityRuleSoftSpec` |
| ProfanitySoft.ProfanityRuleSoftExact | src/modules/profanity_soft.py:25-30 | with an exact set listing, the entries reported are exactly those occurring as whole words, each once |
| ProfanitySoft.WholeWordExamples | src/modules/profanity_soft.py:26-27 | a word is found on its own but not inside a longer word |
| NamesHelpers.RemovePunctuation | src/modules/names_helpers.py:10-12 | exactly the word and whitespace characters of the text are kept |
| NamesHelpers.RemovePunctuationIdempotent | src/modules/names_helpers.py:10-12 | removing punctuation a second time changes nothing |
| NamesHelpers.Select | src/modules/names_helpers.py:26 | an item is kept if and only if it is in the list and its membership of the other list is as asked |
| NamesHelpers.SelectMultiset | src/modules/names_helpers.py:26 | every kept item keeps its multiplicity |
| NamesHelpers.RemoveNonNames | src/modules/names_helpers.py:15-28 | a suspected name is kept if and only if it is not a non-name |
| NamesHelpers.DefiniteNames | src/modules/names_helpers.py:31-45 | every result is a definite name |
| NamesHelpers.DefiniteNamesExact | src/modules/names_helpers.py:41-43 | a definite name is found if and only if it is a space-separated word of the cleaned, lower-cased text, and as often as it occurs there |
| NamesHelpers.OrgFiltered | src/modules/names_helpers.py:60-67 | a name is kept if and only if its partial ratio against the organisation key is below 89 |
| NamesHelpers.AllowOrgName | src/modules/names_helpers.py:48-67 | the loop keeps, in order, the names `OrgFiltered` keeps |
| NamesHelpers.OrgFilteredDistinct | src/modules/names_helpers.py:62-65 | filtering a list without repeats leaves a list without repeats |
| NamesHelpers.NameList.Remove | src/modules/names_helpers.py:89-90 | the first occurrence of the item is deleted, so the list loses exactly one copy of it |
| NamesHelpers.NameList.Sort | src/modules/names_rule.py:72 | the list becomes sorted and is a permutation of what it was |
| NamesHelpers.EndWords | src/modules/names_helpers.py:78-87 | without commas and full stops, the text has no word if and only if there is an `IndexError`; otherwise there are three candidates |
| NamesHelpers.RemoveEach | src/modules/names_helpers.py:88-90 | removing the candidates deletes at most one item per candidate |
| NamesHelpers.RemoveEachSubseq | src/modules/names_helpers.py:88-90 | what remains is a subsequence of the list |
| NamesHelpers.RemoveEachDistinct | src/modules/names_helpers.py:88-90 | on a list without repeats, an item remains if and only if it is not a candidate, and no repeats appear |
| NamesHelpers.RemoveCandidates | src/modules/names_helpers.py:88-90 | the in-place loop leaves the list as `RemoveEach` of the list before |
| NamesHelpers.AllowNameSignoff | src/modules/names_helpers.py:70-92 | a text without words raises and leaves the list alone; otherwise the candidates are removed in place and the list is returned |
| Names.PersonWords | src/modules/names_rule.py:51-55 | succeeds if and only if every entity has a group, and a word whenever it is a person. A word is reported if and only if it is the lower-cased word of a person entity |
| Names.NamesRuleSpec | src/modules/names_rule.py:19-77 | the names reported are sorted, with code 1 if and only if there are some |
| Names.NamesRule | src/modules/names_rule.py:19-77 | the request, the filters, the in-place sign-off removal and the sort give `NamesRuleSpec` |
| Names.RemainingExact | src/modules/names_rule.py:57-69 | with an exact set listing, a name is left if and only if it is a definite name or a tagged non-non-name, does not resemble the organisation, and (in a body) is not a sign-off candidate; no name repeats |
| Names.RemainingIgnoresSetOrder | src/modules/names_rule.py:62-72 | two exact set listings give the same outcome and, after sorting, the same names |
| Names.NamesRuleIgnoresSetOrder | src/modules/names_rule.py:62-72 | the names rule's result does not depend on the set order |
| Names.NamesRuleExact | src/modules/names_rule.py:50-77 | the reported names are sorted, without repeats, and exactly those `RemainingExact` describes |
| Names.NamesRuleErrors | src/modules/names_rule.py:31-69 | an unset variable is an `AttributeError`. Errors come only from the environment, the request, an entity's fields, or a body over sixty characters with no word |
| Names.RemainingErrors | src/modules/names_rule.py:68-69 | the filters fail only with an `IndexError`, on a body over sixty characters with no word |
| Descriptions.Descriptors | src/modules/descriptor_rule.py:64-67 | succeeds if and only if every pair can be read. A descriptor is reported if and only if some pair has a listed adjective and a listed noun, and the descriptor is "adjective noun" |
| Descriptions.CollectDescriptors | src/modules/descriptor_rule.py:61-67 | the loop gives `Descriptors`, including its `IndexError` |
| Descriptions.DescriptorsErrStays | src/modules/descriptor_rule.py:64-67 | an unreadable pair fails the whole reply |
| Descriptions.DescriptorRuleSpec | src/modules/descriptor_rule.py:26-72 | a non-string is a `ValueError`; the code is 1 if and only if a descriptor was found |
| Descriptions.DescriptorRule | src/modules/descriptor_rule.py:10-72 | the checks, the request and the loop give `DescriptorRuleSpec` |
| Descriptions.DescriptorRuleErrors | src/modules/descriptor_rule.py:26-65 | errors come only from the argument, the environment, a missing key, the request, or a short pair |
| Descriptions.DescriptorExample | src/modules/descriptor_rule.py:64-67 | a listed pair is reported; a pair with an unlisted adjective is skipped even without a noun |
| Safeguarding.ConcernCode | src/modules/safeguarding_rule.py:42-47 | 1 if and only if "Possibly Concerning", 2 if and only if "Strongly Concerning", 0 otherwise |
| Safeguarding.SafeguardingRule | src/modules/safeguarding_rule.py:12-48 | the result has one grade, coded by `ConcernCode`. Errors come only from the environment, the request, or a missing key |
| Safeguarding.SafeguardingReportsReply | src/modules/safeguarding_rule.py:44-48 | a reply with both keys is reported as it came |
| Safeguarding.SafeguardingGradeFirst | src/modules/safeguarding_rule.py:44-48 | a reply without a grade is a `KeyError("0")` |
| Complaints.ComplaintVerdict | src/modules/complaint_rule.py:70-77 | a complaint if and only if the answer is 1 |
| Complaints.ComplaintRule | src/modules/complaint_rule.py:25-77 | a non-string is an `AssertionError`; a result has one value and code 0 or 1 |
| Complaints.ReadReply | src/modules/complaint_rule.py:67-77 | the reply is read through its second character; errors are `IndexError` or `ValueError` |
| Complaints.ReplySecondChar | src/modules/complaint_rule.py:67-75 | a reply too short is an `IndexError`. A digit decides: a complaint if and only if it is `1`. Anything else is a `ValueError` |
| Complaints.ComplaintReadsSecondChar | src/modules/complaint_rule.py:63-77 | once the request succeeds, the outcome depends on the reply's second character alone, as `ReplySecondChar` says |
| Complaints.ComplaintRuleErrors | src/modules/complaint_rule.py:44-69 | errors come only from the argument, the environment, the request, or the reply |
| NotAnExperience.ExperienceVerdict | src/modules/not_experience_rule.py:53-59 | not an experience if and only if the answer is 1 |
| NotAnExperience.NotExperienceRule | src/modules/not_experience_rule.py:10-59 | a value that is not a string (such as a number) has no length and is a `TypeError`. A title of sixty characters or fewer is an experience. A result has one value and code 0 or 1 |
| NotAnExperience.ReadReply | src/modules/not_experience_rule.py:53-59 | a reply without key `"0"` is a `KeyError`; a result has one value and code 0 or 1 |
| NotAnExperience.ReplyOne | src/modules/not_experience_rule.py:53-57 | an answer of 1, as a number, a boolean or a numeric string, is not an experience |
| NotAnExperience.TitlesSkipTheModel | src/modules/not_experience_rule.py:22-24 | a title's result does not depend on the environment or the model |
| NotAnExperience.BodyAnswerOne | src/modules/not_experience_rule.py:26-59 | a body whose model answers 1 is not an experience |
| Services.Endpoint | src/modules/descriptor_rule.py:33-39 | succeeds if and only if both variables are set and, where checked, the cleaned key is not empty. The request carries the cleaned key and the corrected URL, which has a scheme |
| Services.Call | src/modules/descriptor_rule.py:48-59 | succeeds if and only if the model answers, with its answer |
| Services.ParseInt | src/modules/complaint_rule.py:69 | a failure is a `ValueError` |
| Services.ParseIntDigits | src/modules/complaint_rule.py:69 | a run of decimal digits parses to its value |
| Services.ParseIntNegative | src/modules/not_experience_rule.py:53 | a minus sign before a run of digits parses to the negated value |
| Services.DecimalValue | src/modules/complaint_rule.py:69 | the decimal digits of a natural number read back as that number |
| Services.ParseIntRoundTrip | src/modules/not_experience_rule.py:53 | `int(str(n)) == n` for every integer, negative ones included |
| Services.ParseIntOneChar | src/modules/complaint_rule.py:69 | one digit parses to its value; one non-digit is refused |
| Services.PyInt | src/modules/not_experience_rule.py:53 | numbers are kept, booleans become 0 or 1, strings are parsed, and anything else is a `TypeError` |
| CommonFunctions.CleanedKey | src/helpers/common_functions.py:12-25 | a cleaned key holds no quote characters |
| CommonFunctions.CleanApiKey | src/helpers/common_functions.py:12-25 | the three deletions in turn give `CleanedKey` |
| CommonFunctions.DeleteQuotesOneByOne | src/helpers/common_functions.py:22-24 | deleting the three quotes one after another is deleting them all |
| CommonFunctions.CleanedKeyKeepsTheRest | src/helpers/common_functions.py:21-24 | the cleaned key is a subsequence of the stripped key, and every non-quote character keeps its count |
| CommonFunctions.SchemeSearch | src/helpers/common_functions.py:44 | finds the leftmost position where a scheme starts, or reports that there is none |
| CommonFunctions.FromScheme | src/helpers/common_functions.py:42-50 | the result starts with a scheme |
| CommonFunctions.CorrectUrlFormat | src/helpers/common_functions.py:28-55 | the steps in turn give `CorrectedUrl` |
| CommonFunctions.SchemeSurvivesQuoteDeletion | src/helpers/common_functions.py:52-54 | deleting quotes keeps a leading scheme |
| CommonFunctions.SchemeHasNoQuotes | src/helpers/common_functions.py:52-54 | the schemes hold no quotes |
| CommonFunctions.CorrectedUrlHasScheme | src/helpers/common_functions.py:28-55 | every corrected URL starts with `http://` or `https://` |
| CommonFunctions.CorrectedUrlHasNoQuotes | src/helpers/common_functions.py:52-54 | a corrected URL holds no quote characters |
| CommonFunctions.CorrectedUrlKeepsScheme | src/helpers/common_functions.py:39-54 | a trimmed URL with a scheme only loses its quotes |
| CommonFunctions.CorrectedUrlCutsAtLeftmostScheme | src/helpers/common_functions.py:44-47 | a URL with a scheme inside is cut at the leftmost one |
| CommonFunctions.CorrectedUrlDefaultsToHttp | src/helpers/common_functions.py:48-50 | a URL without a scheme gets `http://` in front |
| CommonFunctions.ResultCodeMapper | src/helpers/common_functions.py:133-142 | maps 0, 1 and 2 to their explanations; any other code is a `KeyError` |
| CommonFunctions.ResultCodeMapperInjective | src/helpers/common_functions.py:141 | different codes never share an explanation |
| CommonFunctions.FormattedText | src/helpers/common_functions.py:145-163 | the output holds no brackets or braces |
| CommonFunctions.FormatOutputText | src/helpers/common_functions.py:145-163 | the replacement and the conditional deletions give `FormattedText` |
| CommonFunctions.FormattedTextIdempotent | src/helpers/common_functions.py:154-162 | formatting formatted text changes nothing |
| CommonFunctions.IsEnglish | src/helpers/common_functions.py:105-130 | true if and only if every character is ASCII or one of the thirteen tolerated ones |
| Config.LowerAll | src/config.py:23-28 | every item is lower-cased, in the same position |
| Config.LoadLexicons | src/config.py:18-28 | the non-names and definite names are lower-cased item by item; the other lists are kept as read |
| PyStr.Lower | src/hardrules.py:50 | `lower` keeps the length and lower-cases each character |
| PyStr.LowerIdempotent | src/hardrules.py:50 | lower-casing twice is lower-casing once |
| PyStr.LStrip | src/helpers/common_functions.py:39 | the result is a suffix whose removed prefix is all stripped characters and which does not start with one |
| PyStr.Strip | src/helpers/common_functions.py:21 | the result neither starts nor ends with whitespace |
| PyStr.StripUnpadded | src/helpers/common_functions.py:21 | a text that neither starts nor ends with whitespace is left as it is |
| PyStr.DeleteCharsTwice | src/helpers/common_functions.py:22-24 | two deletions in turn are one deletion of both sets |
| PyStr.DeleteCharsAbsent | src/helpers/common_functions.py:161-162 | deleting characters changes the text if and only if some of them occur in it |
| PyStr.DeleteCharsInOrder | src/helpers/common_functions.py:22-24 | the surviving characters keep their order |
| PyStr.DeleteCharsCounts | src/helpers/common_functions.py:22-24 | the surviving characters keep their counts |
| PyStr.SplitJoin | src/modules/names_helpers.py:43 | joining the pieces of a split with the separator gives back the text |
| PyStr.Words | src/modules/names_helpers.py:81 | the words are non-empty and hold no whitespace; there are none if and only if the text is all whitespace |
| Seqs.Filter | src/hardrules.py:156 | an item is kept if and only if it passes the test |
| Seqs.FilterMultiset | src/hardrules.py:156 | kept items keep their multiplicity |
| Seqs.RemoveFirst | src/modules/names_helpers.py:90 | removing a present item shortens the list by one; removing an absent one changes nothing |
| Seqs.RemoveFirstMultiset | src/modules/names_helpers.py:90 | exactly one copy of a present item is removed |
| Seqs.RemoveFirstDistinct | src/modules/names_helpers.py:90 | on a list without repeats, removing the first occurrence is filtering the item out, and no repeats appear |
| Seqs.ListingLength | src/modules/names_rule.py:62 | an exact listing of a set has as many items as the set |
| Sorting.SortStrings | src/modules/names_rule.py:72 | the result is sorted and is a permutation of the input |
| Sorting.SortedUnique | src/modules/names_rule.py:72 | two sorted permutations of the same list are equal |
| Sorting.LexLeTotal | src/modules/names_rule.py:72 | any two strings are comparable |
| Sorting.LexLeAntisymmetric | src/modules/names_rule.py:72 | strings that are each at most the other are equal |
| Sorting.LexLeTransitive | src/modules/names_rule.py:72 | the string order is transitive |
| Sorting.SortDistinct | src/modules/names_rule.py:72 | sorting a list without repeats gives a list without repeats |
| Sorting.PermutationDistinct | src/modules/names_rule.py:62-72 | a permutation of a list without repeats has no repeats |

## Left out

- Character classes beyond ASCII. `\w`, `isupper`, `lower` and the address
  character classes are modelled for ASCII letters and digits. Non-ASCII
  letters, digits and case mappings are not. Whitespace is the exact set
  that `str.isspace` accepts.
- spaCy. Tokenisation, the URL matcher's patterns and the `nlp.vocab` lookup
  of match ids are parameters. The processed document keeps the comment as
  its text, as spaCy's `Doc.text` does. A matcher hit carries its pattern name and
  span text directly.
- The URL regular expression of `find_match_for_url_rule` is a parameter.
  What it counts as a URL is not modelled.
- `fuzz.partial_ratio` is a parameter returning an integer.
- The interpreter's set order. It is a parameter (`listing`). Properties
  that need it to be an exact enumeration say so in their `requires`.
- ProfanitySoft.SearchWholeWord matches a lexicon entry literally. The code
  splices the entry into a regular expression unescaped, so an entry with
  regex metacharacters behaves differently.
- Transport. HTTP, headers, the SSL context (`allow_self_signed_https`),
  the byte decoding and the double JSON decoding of replies are not
  modelled. A remote model returns the decoded reply, or fails.
- JSON values the rules do not expect are not modelled: floats (`int(1.0)`),
  nested values, non-string entity fields, non-string safeguarding values.
- Services.ParseInt accepts surrounding whitespace, a sign and ASCII digits.
  Underscores between digits and non-ASCII digits, which Python's `int`
  also accepts, are left out.
- Concurrency. `exec_in_parallel` runs the rules on four threads. The model
  runs them one after another in dispatch order. When several rules raise,
  the model reports the first in dispatch order.
- Logging. The `log_exceptions` decorator only logs and re-raises, so an
  error passes through unchanged.
- Configuration and other helpers: `load_env_variables`,
  `give_emoji_free_text`, `colouring`, `write_to_file`, and the file
  reading in `read_csv_list`. `Config.LoadLexicons` takes the rows as
  already read and right-stripped.
- `src/app.py` (the web service), `spacy_nlp_matcher_making.py`, the
  evaluation and performance scripts, and the acceptance tests are not part
  of this model.
- NamesHelpers.NameList.Remove requires the item to be present. The only
  caller checks membership first, so the `ValueError` that `list.remove`
  raises otherwise is never reached.
- A Python `str` argument versus another type is modelled as `Arg`. Within
  `apply`, every rule is given a string.
- NotAnExperience.NotExperienceRule models a non-string argument as a value
  without a length, such as a number, which raises `TypeError`. A list or
  dictionary argument, for which `len` succeeds, is not modelled.
