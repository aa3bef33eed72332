# Job-posting bias analysis: a Dafny model of the backend core

This project models the string logic behind a job-posting bias checker.
It covers four backend modules.

- `bias_engine.py` finds biased keywords in a posting, in six phrase lists:
  masculine-coded, feminine-coded, age-biased, exclusionary, cultural-fit
  clichés and disability-biased. It infers labels when the zero-shot
  classifier fails. It computes the bias score (0-100) and the
  international-student score (0-100), and raises red flags.
- `rewrite_engine.py` does three things:
  - it rewrites a posting with a fixed table of case-insensitive regular
    expressions;
  - it lists the changes between the original and the rewrite;
  - it chooses between a language model and those rules.
- `company_dei.py` covers the static DEI table. It looks up a company's
  insights and the alternatives that score higher, builds job cards from
  them, and lists the top companies.
- `link_parser.py` covers five pieces: the job id of a LinkedIn URL, the
  choice of scraper for a URL, the whitespace cleanup of scraped text, the
  `raw_text` of a LinkedIn posting, and the plain-text fallback for other
  sites.

The files:

- `Wrappers.dfy` holds `Option`.
- `Text.dfy` holds the Python string operations the code uses: `lower`,
  `strip`, `split()`, `join`, `split(c)`, `in` and slicing.
- `Pattern.dfy` is a matcher for the regular-expression subset the code
  uses. That is literal characters, `\s+`, `\d+`, `\d{8,}`, `[^/]+`,
  `[^.]*`, ` {2,}`, `\n{3,}`, `s?`, `\.?`, `\b` and top-level alternation.
  It adds `re.search` (the leftmost match) and `re.sub` (non-overlapping
  matches, left to right), both with and without `IGNORECASE`.
- `BiasEngine.dfy`, `RewriteEngine.dfy`, `CompanyDei.dfy` and
  `LinkParser.dfy` each model one backend module.

Python loops that build a result step by step are Dafny methods with loop
invariants. Each such method is proved equal to a specification function,
and the properties are proved about that function:

- `DetectBiasKeywords` and `ScanCategory`
- `InferFromKeywords` and `AnalyzeWithClassifier`
- `CalculateBiasScore` and `GenerateRedFlags`
- `AnalyzeFull`
- `Substitute` and `MockRewrite`
- `CompareAgainst` and `IdentifyChanges`
- `RewriteInclusive`
- `FindRow`, `GetCompanyInsights` and `GetAlternatives`
- `CardsFor` and `GetAlternativeJobs`
- `TopEntriesOf` and `GetTopCompanies`

Expression-only code is modelled by functions. That covers the scores,
the URL parsing, the routing, the cleanup and the text assembly. In
`LinkParser.dfy` the functions for `link_parser.py` are these, and the
lemmas in the table below state their properties:

- `ExtractJobId` for `extract_job_id_from_linkedin_url` (backend/link_parser.py:27-54);
- `Route` for the scraper choice of `parse_job_link` (lines 265-310);
- `CleanDescription` for the whitespace cleanup of a scraped description (lines 175-179);
- `LinkedInRawText` for the `raw_text` of a LinkedIn posting (lines 188-197);
- `GenericFallback` for the plain-text fallback (lines 359-376).

How the code's values are represented:

- Numbers are integers. Classifier probabilities are hundredths (0.7 is
  70) and DEI scores are tenths (4.2 is 42). The code only compares,
  copies and weighs these, except `int(top_score * 20)`, which is
  modelled as truncating division of the hundredths by 5.
- The classifier and the language model are function parameters
  (`classify`, `Llm`). Whatever they return is a possible input.
- Scraped page fields are plain string inputs; an empty string stands for
  a missing one.

Some facts about the code, which the model follows:

- There are six keyword categories, with no appearance category.
- Overlapping phrases are all reported, with no priority between them.
  For example, "work hard play hard" counts as both masculine-coded and a
  cultural-fit cliché (`SharedEntry`, `ReportedAlike`).
- `analyze_full` returns no `inclusivity_score` key, yet the batch
  endpoint in backend/main.py:169 reads one, so it always gets `None`
  there (`AssembleReport`).
- An empty posting is not rejected: it scores 0 (`BlankPostingScoresZero`).

## Model

| member | source | states |
|---|---|---|
| Text.Lower | backend/bias_engine.py:88 | `lower()` keeps the length, leaves no ASCII capital, adds 32 to each capital and keeps every other character |
| Text.LowerIdempotent | backend/link_parser.py:265 | lower-casing twice is lower-casing once |
| Text.LowerAppend | backend/rewrite_engine.py:119 | lower-casing distributes over concatenation, so a lower-cased appended tail is still found |
| Text.Strip | backend/bias_engine.py:78 | `strip()` is empty exactly when the text is all whitespace; otherwise it starts and ends with non-space and is no longer than the input |
| Text.StripIsSlice | backend/link_parser.py:179 | `strip()` returns a contiguous slice of its input, and what it cuts off at either end is all whitespace |
| Text.SplitWords | backend/bias_engine.py:90 | `split()` yields whitespace-free non-empty tokens, and none exactly when the text is all whitespace |
| Text.SplitWordsRuns | backend/bias_engine.py:90 | the tokens are the maximal non-space runs in order: the input is the tokens interleaved with all-whitespace gaps, non-empty between tokens |
| Text.SplitOn | backend/link_parser.py:35 | `split('&')` yields at least one piece and no piece holds the separator |
| Text.SplitOnJoin | backend/link_parser.py:35 | joining the pieces of `split(c)` with `c` gives back the string |
| Text.IndexOf | backend/link_parser.py:34 | the first occurrence of a character: it is there, and not before |
| Text.Slice | backend/link_parser.py:371 | Python's `xs[:n]` for any integer `n`, including negative ones: the length it keeps, and that it is a prefix |
| Pattern.SearchFrom | backend/link_parser.py:41 | `re.search` returns the leftmost position where the pattern matches, with that match's end; no earlier position matches |
| Pattern.FoundIff | backend/rewrite_engine.py:109 | a pattern is found exactly when it matches at some position |
| Pattern.SearchFinds | backend/link_parser.py:41-43 | a match at `j` with none before it is what `re.search` returns |
| Pattern.Sub | backend/rewrite_engine.py:110 | `re.sub` leaves a text without a match unchanged |
| Pattern.SubKeepsPrefix | backend/rewrite_engine.py:110 | `re.sub` copies the text before the first match unchanged |
| Pattern.SubSplices | backend/rewrite_engine.py:110 | for a pattern without empty matches, `re.sub` replaces a chain of non-overlapping matches that covers every matching position, and copies the text between them |
| Pattern.MatchAtFirst | backend/rewrite_engine.py:110 | at one position the first alternative that matches decides the match, and no earlier alternative matches |
| Pattern.MatchSeqAppend | backend/link_parser.py:45 | matching a concatenated pattern is matching the first part, then the second from where it stopped |
| Pattern.MatchLit | backend/link_parser.py:41 | a literal pattern matches exactly where the text spells it out |
| Pattern.WholeWordMatch | backend/bias_engine.py:123-124 | `\bword\b` matches at `p` exactly when the word stands there between non-word characters |
| Pattern.WholeWordFound | backend/bias_engine.py:134-135 | `re.search(r'\bword\b', …)` succeeds exactly when the word occurs as a whole word somewhere |
| Pattern.RunMatch | backend/link_parser.py:50 | a run pattern `x{n,}` matches at `i` exactly when `n` class characters follow, and it takes the whole run |
| Pattern.ThenRun | backend/link_parser.py:41 | a prefix followed by a run matches up to the end of the run that follows the prefix |
| BiasEngine.PhrasesDistinct | backend/bias_engine.py:40-73 | no phrase list repeats an entry |
| BiasEngine.MasculineSpaces | backend/bias_engine.py:40-45 | exactly two masculine-coded entries are multi-word phrases: "work hard play hard" and "crush it" |
| BiasEngine.MasculineWords | backend/bias_engine.py:122-124 | every other masculine-coded entry is one word of word characters, so it takes the `\b…\b` branch |
| BiasEngine.MasculinePhrases | backend/bias_engine.py:127-128 | the two phrases split into several words, so they take the substring branch |
| BiasEngine.FeminineEntry | backend/bias_engine.py:133-135 | every feminine-coded entry is one word of word characters |
| BiasEngine.Scan | backend/bias_engine.py:120-161 | a category's matches are exactly its entries that hit the normalised text, without repeats, never more than the list |
| BiasEngine.ScanSubsequence | backend/bias_engine.py:120-161 | the matches keep the list's order |
| BiasEngine.ScanCategory | backend/bias_engine.py:152-155 | one category loop counts and appends exactly what the specification lists |
| BiasEngine.DetectBiasKeywords | backend/bias_engine.py:76-164 | `detect_bias_keywords` returns the specified six categories |
| BiasEngine.DetectSpec | backend/bias_engine.py:78-86 | a blank or whitespace-only text gives zero counts and no matches in every category |
| BiasEngine.DetectCategory | backend/bias_engine.py:88-161 | each category's count equals its number of matches; the matches are distinct, in list order, and are exactly the entries that hit the normalised text, when it is not blank |
| BiasEngine.WholeWordEntries | backend/bias_engine.py:122-137 | single-word masculine and all feminine entries are reported exactly when they occur as whole words, ignoring case |
| BiasEngine.SubstringEntries | backend/bias_engine.py:127-161 | all other entries are reported exactly when they occur as substrings of the normalised text |
| BiasEngine.Reported | backend/bias_engine.py:76-164 | an entry is reported exactly when the text is not blank and the entry hits |
| BiasEngine.BlankNormalizesEmpty | backend/bias_engine.py:88-90 | a blank text normalises to the empty string |
| BiasEngine.FoundMeansNotBlank | backend/bias_engine.py:78 | a text whose normalised form contains a non-empty phrase is not blank |
| BiasEngine.CulturalSpaces | backend/bias_engine.py:65-68 | every cultural-fit cliché is a multi-word phrase |
| BiasEngine.SharedEntry | backend/bias_engine.py:44 | "work hard play hard" is in both the masculine-coded and the cultural-fit lists |
| BiasEngine.SharedEntryHit | backend/bias_engine.py:127-128 | an entry in both lists hits in one exactly when it hits in the other |
| BiasEngine.ReportedAlike | backend/bias_engine.py:128-155 | such an entry is reported in both categories or in neither |
| BiasEngine.YoungFoundInYoungster | backend/bias_engine.py:140-143 | age phrases are substrings, so "young" is reported for "youngster" |
| BiasEngine.FallbackLabels | backend/bias_engine.py:214-225 | the inferred labels are between one and four |
| BiasEngine.ScoresOf | backend/bias_engine.py:215-225 | each inferred score belongs to its label: 80 for exclusionary language, 50 for neutral, 70 otherwise |
| BiasEngine.InferShape | backend/bias_engine.py:213-229 | one label per positive count plus neutral (50) last; age-bias, gender-bias and exclusionary-language come in that order, each at its stated index exactly when its count is positive; the first label is neutral exactly when none does; no label repeats |
| BiasEngine.InferFromKeywords | backend/bias_engine.py:213-229 | the insertion steps produce the specified labels and scores |
| BiasEngine.ClassifySpec | backend/bias_engine.py:167-232 | the classification is never empty; it is a fallback exactly when it carries an error, and then it is the keyword inference; a blank text is plainly neutral |
| BiasEngine.AnalyzeWithClassifier | backend/bias_engine.py:167-232 | `analyze_with_classifier` returns the specified classification, for every classifier behaviour |
| BiasEngine.KeywordPoints | backend/bias_engine.py:249-251 | each category adds at most 30 points |
| BiasEngine.ClassifierBonus | backend/bias_engine.py:254-257 | the classifier adds 0 to 20 points when its top score is a probability |
| BiasEngine.BiasScore | backend/bias_engine.py:235-259 | the bias score never exceeds 100, and it is non-negative for probability scores |
| BiasEngine.BiasScoreFormula | backend/bias_engine.py:240-259 | the score is the capped weighted sum with weights 15, 8, 8, 10, 5 and 12, plus the classifier term, capped at 100 |
| BiasEngine.CalculateBiasScore | backend/bias_engine.py:235-259 | the loop over the weights computes that score |
| BiasEngine.CountWhere | backend/bias_engine.py:355-362 | a count of matching entries is at most the list length, and 0 exactly when none matches |
| BiasEngine.InternationalScore | backend/bias_engine.py:349-371 | the international score lies in 0..100 |
| BiasEngine.InternationalIgnores | backend/bias_engine.py:349-371 | the international score does not depend on the masculine, feminine or disability results |
| BiasEngine.MatchFlags | backend/bias_engine.py:393-407 | a high flag is raised exactly for the sponsorship or visa matches, and a medium one exactly for the other native-speaker matches; no other flag comes from the matches |
| BiasEngine.MatchFlagsAppend | backend/bias_engine.py:393-407 | the flags follow the matches in order: concatenated matches give concatenated flags, and a single match gives its own flag (high, medium or none) |
| BiasEngine.GenerateRedFlags | backend/bias_engine.py:389-416 | `generate_red_flags` returns the specified flags |
| BiasEngine.LocalTextRaisesNoFlag | backend/bias_engine.py:409-414 | the cultural-fit flag's text would itself raise no match flag |
| BiasEngine.RedFlagsShape | backend/bias_engine.py:389-416 | at most one flag per exclusionary match plus one; the last flag is the cultural-fit flag exactly when a cliché was found |
| BiasEngine.ClassificationFor | backend/bias_engine.py:270-320 | the classification `analyze_full` uses always has a label and a score |
| BiasEngine.AnalyzeFull | backend/bias_engine.py:262-346 | `analyze_full` returns the specified report |
| BiasEngine.ChooseClassification | backend/bias_engine.py:271-320 | with NLP the classifier's result, without it the keyword inference flagged as fallback |
| BiasEngine.AssembleReport | backend/bias_engine.py:322-346 | the report combines the scores, flags and breakdown computed from one keyword result |
| BiasEngine.BlankPostingScoresZero | backend/bias_engine.py:262-346 | a blank posting scores 0 on both scales and raises no flag, with or without NLP |
| BiasEngine.FailedClassifierFallsBack | backend/bias_engine.py:208-232 | when the classifier fails, the report with NLP has the same labels, scores, bias score and breakdown as without NLP, and both say NLP was not used |
| BiasEngine.SameRankingSameScore | backend/bias_engine.py:323-343 | the bias score and breakdown depend only on the classification's labels and scores |
| BiasEngine.KeywordBonus | backend/bias_engine.py:254-257 | without NLP the classifier term is 14 when age or gender bias was found, 16 when only exclusionary language was, 0 otherwise |
| BiasEngine.NlpUsed | backend/bias_engine.py:345 | `nlp_used` holds exactly when NLP was asked for and the text was blank or the classifier gave a non-empty ranking |
| RewriteEngine.CompileMatches | backend/rewrite_engine.py:86-105 | a compiled rule matches at a position exactly when one of its phrases does there, and then as the first such phrase |
| RewriteEngine.Substitute | backend/rewrite_engine.py:108-111 | the substitution loop applies the rules in table order, each to the previous output |
| RewriteEngine.MockRewrite | backend/rewrite_engine.py:80-122 | `mock_rewrite` returns the specified rewrite |
| RewriteEngine.ApplyRuleIsSub | backend/rewrite_engine.py:109-110 | testing with `re.search` first gives what `re.sub` alone gives |
| RewriteEngine.ApplyRulesAppend | backend/rewrite_engine.py:108-111 | applying two runs of rules in turn is applying their concatenation |
| RewriteEngine.RuleSeesPrevious | backend/rewrite_engine.py:108-111 | rule `k` works on the output of rules `0..k-1` |
| RewriteEngine.LongerPhrasesFirst | backend/rewrite_engine.py:90-94 | "native english speaker" precedes "native speaker", and "no work visa sponsorship" precedes "no sponsorship" |
| RewriteEngine.NoRuleFound | backend/rewrite_engine.py:108-111 | a text in which no rule's pattern is found passes the table unchanged |
| RewriteEngine.RuleKeepsPrefix | backend/rewrite_engine.py:110 | a rule keeps the text before its first match |
| RewriteEngine.DeletionsOnlyForDeskJobs | backend/rewrite_engine.py:114-116 | without "software", "engineer" or "developer" nothing is deleted |
| RewriteEngine.MentionsInclusionAfterAppend | backend/rewrite_engine.py:119-120 | the appended statement mentions inclusion |
| RewriteEngine.RewriteMentionsInclusion | backend/rewrite_engine.py:118-122 | every rewrite mentions "diverse" or "inclusive", and the statement is appended exactly when the text lacked both |
| RewriteEngine.SecondPassAppendsNothing | backend/rewrite_engine.py:116-122 | a second `mock_rewrite` returns its input unchanged when its rules and deletions leave the first pass's output as it was; the statement is then not appended again |
| RewriteEngine.UntouchedText | backend/rewrite_engine.py:80-122 | a posting no rule matches, that needs no deletion and that already mentions inclusion is returned unchanged |
| RewriteEngine.Diffs | backend/rewrite_engine.py:151-153 | no more changes than comparison rows |
| RewriteEngine.DiffsMembers | backend/rewrite_engine.py:151-153 | a row's description is listed exactly when its pattern is in the original and not in the rewrite |
| RewriteEngine.CompareAgainst | backend/rewrite_engine.py:128-163 | the comparison loop and the two additions give the specified list |
| RewriteEngine.IdentifyChanges | backend/rewrite_engine.py:125-163 | `identify_changes` returns the specified list |
| RewriteEngine.DescriptionsDistinct | backend/rewrite_engine.py:134-161 | all descriptions, the inclusion note and the review note are distinct |
| RewriteEngine.DiffsInOrder | backend/rewrite_engine.py:151-153 | the listed descriptions keep the table order and do not repeat |
| RewriteEngine.DiffsEmpty | backend/rewrite_engine.py:151-153 | no description is listed exactly when no row's phrase was removed |
| RewriteEngine.NoDiffsWithItself | backend/rewrite_engine.py:151-153 | a text compared with itself lists no removal |
| RewriteEngine.ChangesFromReported | backend/rewrite_engine.py:151-161 | the change list is never empty and has no repeats; an entry is in it exactly when its row's phrase was removed, or it is the inclusion note and inclusion was gained, or it is the review note and nothing else applies |
| RewriteEngine.ChangesReported | backend/rewrite_engine.py:125-163 | the same, for the fourteen comparison rows of `identify_changes` |
| RewriteEngine.NothingChanged | backend/rewrite_engine.py:160-161 | comparing a text with itself gives only the review note |
| RewriteEngine.RewriteInclusive | backend/rewrite_engine.py:23-77 | `rewrite_inclusive` returns the specified result for every client behaviour |
| RewriteEngine.RewriteInclusiveApproach | backend/rewrite_engine.py:30-77 | the method is "llm" exactly when a client answers with content, and "rule-based" exactly when there is no client; the change list is never empty |
| RewriteEngine.RewriteInclusiveRuleBased | backend/rewrite_engine.py:30-39 | every path but the model's returns the rule-based rewrite, whose text mentions inclusion, and its changes |
| RewriteEngine.ChangesNeverEmpty | backend/rewrite_engine.py:160-161 | the change list is never empty |
| CompanyDei.FindIndex | backend/company_dei.py:191-194 | the lookup returns the first row whose lower-cased name matches, and no earlier row matches |
| CompanyDei.FindRow | backend/company_dei.py:190-194 | the lookup loop finds that row |
| CompanyDei.FindIndexFirst | backend/company_dei.py:152-153 | the first matching row is the one found |
| CompanyDei.FindIndexNone | backend/company_dei.py:168-182 | with no matching row nothing is found |
| CompanyDei.GetCompanyInsights | backend/company_dei.py:148-182 | `get_company_insights` returns the specified insights |
| CompanyDei.InsightsByName | backend/company_dei.py:148-182 | a known name, in any case, gives that row's data without a status; an unknown one gives "Unknown" sponsorship, no footprint, no scores and the "DEI data unavailable" status |
| CompanyDei.RankKeyIsLexicographic | backend/company_dei.py:260-264 | the numeric sort key orders (inclusivity, international friendliness) pairs lexicographically |
| CompanyDei.InsertDescSorted | backend/company_dei.py:217 | inserting into a descending list keeps it descending |
| CompanyDei.InsertDescPerm | backend/company_dei.py:217 | insertion adds exactly the one entry |
| CompanyDei.SortDescProps | backend/company_dei.py:198 | the sort is descending and a permutation of its input |
| CompanyDei.SortedPrefix | backend/company_dei.py:206 | the first `limit` sorted entries are descending, all come from the input, and are all of it when the limit does not cut |
| CompanyDei.SortedPrefixLeftOut | backend/company_dei.py:206 | they are the top `limit`: a sub-multiset of the input, and every entry left out has a key no higher than any kept |
| CompanyDei.Better | backend/company_dei.py:210-214 | the alternatives are exactly the other rows with a strictly higher score |
| CompanyDei.GetAlternatives | backend/company_dei.py:185-228 | `get_alternatives` returns the specified list |
| CompanyDei.RankedSummaries | backend/company_dei.py:198-207 | the summaries come from the input, their scores do not increase, there are `min(limit, size)` of them, all entries appear when the limit does not cut, and an entry left out scores no higher than any listed |
| CompanyDei.RankedLeftOut | backend/company_dei.py:198-207 | an entry whose summary is not listed scores no higher than any listed one |
| CompanyDei.AlternativesOfKnown | backend/company_dei.py:209-228 | for a known company the result is the top `limit` of the other companies with a strictly higher score: each with badges, scores not increasing, `min(limit, number better)` of them, all of them when the limit does not cut that number, and any better company left out scores no higher than every one listed |
| CompanyDei.BetterShorter | backend/company_dei.py:210-214 | the filter never grows the list |
| CompanyDei.AlternativesOfUnknown | backend/company_dei.py:196-207 | for an unknown company the top `limit` companies come without badges, in descending score order: `min(limit, size)` of them, all when the limit does not cut, and a company left out scores no higher than every one listed |
| CompanyDei.TopScorerHasNoAlternative | backend/company_dei.py:210-214 | the best-scoring company has no alternative |
| CompanyDei.NoneBetter | backend/company_dei.py:210-214 | if nobody scores higher, the filter is empty |
| CompanyDei.BadgeRule | backend/company_dei.py:225 | the first badge is always "International Friendly"; "Verified Sponsorship" is added exactly when international friendliness is at least 4.0 |
| CompanyDei.JobsFor | backend/company_dei.py:237-253 | one job card per alternative |
| CompanyDei.GetAlternativeJobs | backend/company_dei.py:231-255 | `get_alternative_jobs` returns the specified cards |
| CompanyDei.CardsFor | backend/company_dei.py:236-255 | the card loop builds those cards in order |
| CompanyDei.JobsForIndex | backend/company_dei.py:237-253 | card `k` is built from alternative `k` |
| CompanyDei.FootprintOfRow | backend/company_dei.py:239-240 | with distinct names the footprint lookup finds the row's own footprint |
| CompanyDei.AlternativeFromRow | backend/company_dei.py:234 | every alternative names a company of the table |
| CompanyDei.JobsShape | backend/company_dei.py:231-255 | one card per alternative, with its company and badges, the stripped title or "Role", and the location joined from that company's footprint |
| CompanyDei.TopEntries | backend/company_dei.py:266-277 | one entry per company |
| CompanyDei.GetTopCompanies | backend/company_dei.py:258-279 | `get_top_companies` returns the specified list |
| CompanyDei.TopEntriesOf | backend/company_dei.py:266-279 | the loop builds one entry per company, in order |
| CompanyDei.TopEntriesIndex | backend/company_dei.py:267-277 | entry `k` is built from company `k` |
| CompanyDei.TopShape | backend/company_dei.py:258-279 | ordered by inclusivity, then international friendliness, descending; every entry carries the fixed example text and comes from the table; `min(limit, size)` entries; all of them when the limit does not cut; and a company left out ranks no higher, in that order, than any listed |
| CompanyDei.TopLeftOut | backend/company_dei.py:258-279 | a company whose entry is not listed ranks no higher, by inclusivity then international friendliness, than any listed one |
| CompanyDei.TableNamesDistinct | backend/company_dei.py:4-145 | the ten company names are distinct, even after lower-casing |
| CompanyDei.TableFootprintsAndScores | backend/company_dei.py:4-145 | every company has a non-empty footprint and an international-friendliness score below 10 |
| CompanyDei.CloudScaleFound | backend/company_dei.py:148-166 | "CloudScale Inc" is found in any case |
| CompanyDei.CaseFolds | backend/company_dei.py:150 | names that agree up to case lower-case alike |
| CompanyDei.TableBestScore | backend/company_dei.py:75-88 | CloudScale Inc has the highest inclusivity score |
| CompanyDei.CloudScaleHasNoAlternative | backend/company_dei.py:185-228 | so it gets no alternatives |
| CompanyDei.TableJobsListFootprints | backend/company_dei.py:239-241 | every card's location is its company's footprint joined with ", " |
| CompanyDei.TableTopCompaniesRanked | backend/company_dei.py:258-279 | the top list is ranked, and any limit of 10 or more returns all ten companies |
| LinkParser.PlusToSpace | backend/link_parser.py:35 | query decoding keeps the length, leaves no `+`, turns each `+` into a space and keeps every other character |
| LinkParser.GroupIsDigitRun | backend/link_parser.py:41-47 | the captured group of a path match is a non-empty run of digits that ends the match and is not followed by a digit |
| LinkParser.PathIdsAreDigits | backend/link_parser.py:40-54 | when no `currentJobId` parameter decides, any id found is a non-empty run of digits |
| LinkParser.LongRunSearch | backend/link_parser.py:50-52 | `(\d{8,})` finds the leftmost run of at least eight digits, taken whole |
| LinkParser.LongestLeftmostRun | backend/link_parser.py:49-54 | when the earlier rules do not apply, the id is the leftmost whole run of eight or more digits, and there is none exactly when no eight digits stand together |
| LinkParser.NoIdOnlyWhenNothingApplies | backend/link_parser.py:27-54 | no id is returned exactly when no query value, no path match and no eight-digit run exists |
| LinkParser.QueryOfPlain | backend/link_parser.py:34 | the query of `base?q` is `q` |
| LinkParser.SingleField | backend/link_parser.py:35 | a query with the one field `key=v` gives `v` for `key` |
| LinkParser.JobIdFromQuery | backend/link_parser.py:33-38 | a `currentJobId` query parameter is returned as it stands, before any path rule |
| LinkParser.CollectionExample | backend/link_parser.py:31 | the collection URL given as an example in the comment gives "4323080682" |
| LinkParser.NoQuery | backend/link_parser.py:34-37 | a URL without `?` has no `currentJobId` |
| LinkParser.JobIdFromViewPath | backend/link_parser.py:40-43 | a `/jobs/view/<digits>` URL without a query gives those digits |
| LinkParser.RouteIgnoresCase | backend/link_parser.py:265 | the choice of scraper ignores case |
| LinkParser.RoutePriority | backend/link_parser.py:265-310 | each scraper is chosen exactly when its test on the lower-cased URL holds and every earlier test fails: LinkedIn for linkedin.com with `/jobs/`, then Indeed for indeed.com, then Glassdoor for glassdoor.com, otherwise the generic path |
| LinkParser.CollapseWhitespaceRuns | backend/link_parser.py:177-178 | after the two substitutions no three newlines and no two spaces stand together |
| LinkParser.SubCollapses | backend/link_parser.py:177 | replacing every run of `n` or more copies of a character by `n-1` copies leaves no run of `n` |
| LinkParser.SubKeepsNoRun | backend/link_parser.py:178 | the space substitution creates no newline run |
| LinkParser.CleanDescriptionRuns | backend/link_parser.py:175-179 | a cleaned description contains no "\n\n\n" and no double space |
| LinkParser.RawTextFirstLine | backend/link_parser.py:188-191 | the first line of `raw_text` is the title (or "Job Posting") with " at " and the company when there is one |
| LinkParser.RawTextLayout | backend/link_parser.py:191-197 | the description or its placeholder follows the header after a blank line; the text ends with the location line when there is a location, with the description otherwise |
| LinkParser.FallbackShape | backend/link_parser.py:359-376 | the fallback succeeds exactly when the collapsed text is longer than 200 characters; its description and raw text are then the same prefix `text[:5000]`, exactly `min(len, 5000)` characters and more than 200, with no "\n\n\n" and no double space |

## Left out

- Fetching pages is not modelled: HTTP requests, headers, timeouts and
  redirects to a login page. Nor is reading HTML: selectors,
  `get_text`, meta tags and JSON-LD. The scraped fields are inputs.
- Some `parse_job_link` outcomes are not modelled: the Glassdoor and
  Indeed result dictionaries and the error dictionaries. The `url` and
  `message` fields and the netloc quoted in the message are left out too.
  All of these depend on HTML or on exception text.
- `get_classifier` and the model it loads, `torch`, logging, the
  benchmark script, `main.py` and `models.py` lie outside the core.
- The classifier and the language model are parameters. The system
  message, model name, temperature and token limit sent to the language
  model are not represented. Only the user prompt is.
- Case folding, whitespace, digits and word characters are ASCII-only.
  Python's `lower()`, `split()`, `\b` and `\d` also treat other Unicode
  letters, spaces and decimal digits.
- Query parsing is simplified. `QueryValue` splits on `&` and `=` and maps
  `+` to a space. It does not percent-decode, does not accept `;`, and
  does not remove the tab, CR and LF characters that `urlsplit` strips.
- The patterns are matched possessively: runs are taken whole and never
  given back. For every pattern in these modules this gives the same
  result as Python's backtracking, because what follows each run cannot
  start with the run's own class.
- Groups such as `(canadian|american)` and `(work\s+)?` are written as
  top-level alternatives.
- The in-place `list.sort` of `get_alternatives` is a reassignment with a
  sorted copy. Aliasing of the list is not represented.
- CompanyDei.SortDesc: stability is built into the definition (equal keys
  keep their order) but is not proved as a separate lemma.
- `analyze_full`'s `except` branch (lines 277-299) is not modelled.
  `analyze_with_classifier` catches every exception itself, so that
  branch is not reached.
- `mock_rewrite` collects descriptions in `changes_made` and then discards
  them; the model omits that list.
- Counts are unbounded naturals. Missing dictionary keys are not
  represented, because every dictionary the code reads is built by the
  code itself with all keys present.
- Some error-key details are not distinguished. The keyword-only
  classification of `analyze_full` has no `error` key, while the
  classifier's success path has `"error": None`; both are `error == None`.
- A description of `None` and an empty description are the same empty
  string.
- `rewrite_inclusive`'s "method" strings are the three constructors of
  `Approach`.
- ExtractJobId: does not model the `ValueError` that `urlparse` raises for
  a malformed bracketed host in the network location, either unbalanced
  (`https://[x/jobs/view/123`) or not an IP literal
  (`https://[abc]/jobs/view/123`); the model returns the path's id there.
- MockRewrite: not idempotent, and the code does not promise it. A second
  pass's deletion `physical\s+requirements[^.]*\.` can cut away the text
  that held "inclusive", and the statement is then appended again (input
  `software. physical physical requirements x. requirements inclusive.`).
  `SecondPassAppendsNothing` states when a second pass changes nothing.
- Default arguments are not represented. The model takes `limit`,
  `useNlp` and `companyName` as explicit parameters, so a default is the
  case limit 3 (`GetAlternatives`), 5 (`GetAlternativeJobs`) or 10
  (`GetTopCompanies`), `useNlp == false` and `companyName == None`.
  backend/main.py:121 and :135 rely on the `limit` defaults of 3 and 5.
  The unused `timeout=3` parameter of `analyze_with_classifier` is
  dropped.
