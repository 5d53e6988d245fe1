# CorporateActions core, modelled in Dafny

This project models the core of CorporateActions, a pipeline that harvests corporate-action events from SEC EDGAR filings. Examples of such events are splits, dividends, mergers and spin-offs. The pipeline turns each event into one canonical, validated record with a deterministic identity, and stores that record in Postgres.

The model covers the following parts of the pipeline, one Dafny module per source file:

- **CorporateActionModel** (`corporate_action.dfy`): the canonical record and its rules.
  - The identifier patterns.
  - The ratio and consideration-leg rules.
  - The cross-field date and terms-coherency checks.
  - The event identity: the ordered tokens that are hashed into a UUID.
- **EffectiveDateResolver** (`effective_date.dfy`): ranking the effective-date candidates.
  - Candidates are ranked by kind, then confidence, with a stable sort.
  - The best-ranked candidate is the recommendation.
  - A definitive date is promoted above a confidence threshold.
  - The display summary of the recommendation.
- **CaRepository** (`repository.dfy`): persistence into four tables held in memory.
  - The main row is upserted.
  - Sources are merged by their unique keys.
  - Legs and provenance rows are replaced.
  - Batches are persisted in order.
- **LlmMerge** (`llm_merge.dfy`): folding a language-model extraction into an existing record.
  - Ratio parsing.
  - Money and leg conversion.
  - Extraction of the JSON block.
  - The merge rules.
- **SecSubmissions** (`sec_submissions.dfy`): CIK padding, and listing recent filings from the submissions JSON.
- **FilingParser** (`filing_parser.dfy`): the `<SEC-HEADER>` key/value parser and the keyword classifier.
- **Exchanges** (`exchange_resolver.dfy`): the lazily loaded alias→MIC and MIC→name tables.
- **EnrichmentMetrics** (`metrics.dfy`): the enrichment counters and their summary.
- **DatabaseUrl** (`db_url.dfy`): the Postgres URL rewrite to the psycopg driver.
- **DailyIndex** (`daily_index.dfy`): the quarter label and the EDGAR daily-index parser.

`wrappers.dfy` holds the shared Option and Result types. `text.dfy` models the Python `str` methods the core uses (`strip`, `lower`, `upper`, `split`, `join`, `zfill`, `find`, `rfind`) on ASCII text.

Some parts keep state or work by loops, and those parts are imperative:

- **Classes:**
  - `CaRepository.Repository` holds the four tables. Each helper statement is a method that reassigns them.
  - `Exchanges.ExchangeResolver` holds the two dictionaries and the `loaded` flag.
  - `EnrichmentMetrics.Metrics` holds the five counters.
- **Loops as methods:** each loop of the source is a method with a `while` loop. Each of these methods is proved equal to a specification function, and the properties are proved about that function:
  - the identity tokens;
  - the leg conversion;
  - the header lines;
  - the recent-filings listing;
  - the daily-index lines;
  - the source upserts.

Three operations stay outside the model and are passed in as function parameters:

- the hash, a `digest` parameter for SHA-256 followed by UUIDv5;
- the closest-fraction search, a `limit` parameter for `Fraction.limit_denominator(1000)`;
- the settings the environment supplies: the model name and the minimum confidence.

## Model

| member | source | states |
|---|---|---|
| CorporateActionModel.NormalizeTicker | src/models/corporate_action_model.py:135-143 | None passes; otherwise the ticker is upper-cased first and accepted exactly when the upper-cased text matches the ticker pattern, and the accepted value is the upper-cased text |
| CorporateActionModel.ValidateSecurity | src/models/corporate_action_model.py:129-164 | a security is accepted exactly when its upper-cased ticker (if any) matches the ticker pattern and each non-empty MIC, ISIN and CUSIP matches its pattern; only the ticker is changed (upper-cased) |
| CorporateActionModel.ValidateLegs | src/models/corporate_action_model.py:220-226 | a leg list is accepted exactly when every leg passes the leg rules of `LegError` (a cash leg has cash, a stock leg has a ratio, ratio terms at least 1, money and security valid under the corrected, newline-free shapes); the result normalises each leg in place with `NormalizeLeg`, keeping its length |
| CorporateActionModel.ValidateTerms | src/models/corporate_action_model.py:229-237 | terms are accepted exactly when a present ratio has both terms at least 1, present cash has a three-letter upper-case currency and every leg passes the leg rules (`LegError`); accepted terms keep the ratio, the cash and the presence of the legs, and each accepted leg is the normalised input leg (`NormalizeLeg`) |
| CorporateActionModel.CoherencyError | src/models/corporate_action_model.py:317-332 | no error exactly when split-like types have a ratio (generic or on a leg), cash-like types have cash (generic or on a leg) and stock mergers have a ratio |
| CorporateActionModel.Construct | src/models/corporate_action_model.py:292-367 | an action type outside the thirteen constants fails with that error (the corrected type set), then an out-of-range confidence (the field checks of `ValidateFields`); a success satisfies every record invariant, changes only the ticker, legs and identity, keeps an explicit non-empty id and otherwise carries the hashed identity of its own content (`EventIdOf`) |
| CorporateActionModel.ConstructSucceedsIff | src/models/corporate_action_model.py:292-332 | construction succeeds exactly when the action type is known, the confidence lies in [0, 1], the CIK is ten digits, provenance confidences lie in [0, 1], the security and terms validate, the dates are ordered and the terms are coherent |
| CorporateActionModel.ReconstructIsIdentity | src/models/corporate_action_model.py:292-367 | re-validating a constructed record returns it unchanged (for a digest that never yields an empty id) |
| CorporateActionModel.ValidateSecurityIdempotent | src/models/corporate_action_model.py:135-164 | validating an accepted security again gives the same result |
| CorporateActionModel.ValidateLegsIdempotent | src/models/corporate_action_model.py:220-226 | validating accepted legs again gives the same result |
| CorporateActionModel.ValidateTermsIdempotent | src/models/corporate_action_model.py:229-237 | validating accepted terms again gives the same result |
| CorporateActionModel.ValidateFieldsIdempotent | src/models/corporate_action_model.py:292-305 | running the field validators on their own output changes nothing |
| CorporateActionModel.TickerIsUpper | src/models/corporate_action_model.py:93 | a string matching the ticker pattern is already upper-case |
| CorporateActionModel.DateTokensAll | src/models/corporate_action_model.py:351-354 | every present date contributes its own token, not only the first; the token count is the number of present dates |
| CorporateActionModel.EventIdTokensShape | src/models/corporate_action_model.py:339-363 | the identity tokens start with the action type, have one token per present identifier, date and term plus one per leg, and end with the leg tags in leg order |
| CorporateActionModel.IdentifierTokensShape | src/models/corporate_action_model.py:339-349 | the identifier part starts with the action type and has one token per present identifier |
| CorporateActionModel.AddingCikChangesTokens | src/models/corporate_action_model.py:342-343 | supplying a CIK where there was none always changes the identity input |
| CorporateActionModel.SameContentSameId | src/models/corporate_action_model.py:334-367 | two records without an explicit id that agree on type, CIK, security, dates and terms receive the same id from `EventIdOf` |
| CorporateActionModel.GenerateEventId | src/models/corporate_action_model.py:334-367 | the identity method computes the specification identity and keeps an explicit non-empty id |
| CorporateActionModel.CollectIdentifierTokens | src/models/corporate_action_model.py:339-349 | the collected identifier tokens are the specification's, in order |
| CorporateActionModel.CollectTermTokens | src/models/corporate_action_model.py:356-359 | the collected term tokens are the specification's, in order |
| CorporateActionModel.AppendDateTokens | src/models/corporate_action_model.py:351-354 | the date loop produces exactly the tagged tokens of the present dates, in field order |
| CorporateActionModel.AppendLegTags | src/models/corporate_action_model.py:360-363 | the leg loop produces one tag per leg, in list order |
| CorporateActionModel.ModuleNamePassesActionTypeCheck | src/models/corporate_action_model.py:292-298 | as written, the module's own name passes the action-type check although it is no action type |
| CorporateActionModel.ActionTypesArePlainLabels | src/models/corporate_action_model.py:26-44 | every admitted action type is a non-empty lower-case snake-case label |
| CorporateActionModel.TrailingNewlineAccepted | src/models/corporate_action_model.py:93-98 | as written, "AAPL\n", "0000320193\n" and "USD\n" pass their patterns although the intended shapes reject them |
| CorporateActionModel.CorrectedShapesRejectNewline | src/models/corporate_action_model.py:93-98 | no identifier shape accepts text containing a newline |
| EffectiveDateResolver.KindRank | src/processors/effective_date_resolver.py:20-25 | every kind ranks between 0 and 3, and rank 3 belongs to "definitive" alone |
| EffectiveDateResolver.NormKind | src/processors/effective_date_resolver.py:41-43 | the stripped, lower-cased kind when it is a known kind, otherwise "relative"; the result is always known |
| EffectiveDateResolver.NormKindIdempotent | src/processors/effective_date_resolver.py:41-43 | normalising a normalised kind changes nothing |
| EffectiveDateResolver.NormalizeCandidate | src/processors/effective_date_resolver.py:52-62 | the kind becomes the normalised kind, a numeric confidence is kept, an unconvertible one becomes None, and the date, start date, end date, qualifier, `via` (the candidate's "method" entry) and extra fields are kept |
| EffectiveDateResolver.ScoreRenormalizes | src/processors/effective_date_resolver.py:46-49 | scoring a normalised candidate re-normalises its kind to the same rank |
| EffectiveDateResolver.SortDesc | src/processors/effective_date_resolver.py:84 | the ranking is a permutation of its input, sorted by rank then confidence, descending |
| EffectiveDateResolver.SortDescStable | src/processors/effective_date_resolver.py:84 | candidates of equal score keep their input order |
| EffectiveDateResolver.Resolve | src/processors/effective_date_resolver.py:65-102 | no candidates give no date and an empty patch; otherwise the patch holds the ranked normalised candidates and the first of them as recommendation |
| EffectiveDateResolver.RecommendationIsMaximal | src/processors/effective_date_resolver.py:86-89 | the recommendation scores at least as high as every normalised candidate |
| EffectiveDateResolver.RankedIsStableSortedPermutation | src/processors/effective_date_resolver.py:81-84 | the ranked list is a sorted, stable permutation of the normalised candidates |
| EffectiveDateResolver.PromotionIff | src/processors/effective_date_resolver.py:91-95 | `Promoted` gives a date exactly when some dated definitive candidate has a confidence at least the threshold |
| EffectiveDateResolver.PromotedIsBestDefinitive | src/processors/effective_date_resolver.py:93-95 | the promoted date belongs to a dated definitive candidate whose confidence is the highest among them and meets the threshold; every earlier dated definitive candidate in input order is strictly less confident, so on a tie the first one wins |
| EffectiveDateResolver.OnlyDefinitivePromoted | src/processors/effective_date_resolver.py:93 | without a definitive candidate nothing is promoted |
| EffectiveDateResolver.DisplayFor | src/processors/effective_date_resolver.py:105-136 | nothing is shown exactly when there is no recommendation or it has no date, no full window and no qualifier; otherwise the base text is the ISO date, the qualifier or "window" (in that order) with the method and confidence |
| EffectiveDateResolver.NoCandidatesNoDisplay | src/processors/effective_date_resolver.py:78-79 | an empty candidate list displays nothing |
| CaRepository.MainParams | src/core/ca_repository.py:29-65 | the ratio and cash columns are null exactly when the terms lack them and hold their parts otherwise; `exchange_raw` is always null |
| CaRepository.Upsert | src/core/ca_repository.py:121-179 | a source row with a new key is appended, one with a stored key replaces that row, and an empty `reference_id` that repeats a stored key is a unique violation |
| CaRepository.UpsertAllKeepsUniqueKeys | src/core/ca_repository.py:121-179 | merging sources (`UpsertAll`, one upsert per incoming row) keeps the unique-index invariant |
| CaRepository.SourcesNeverDeleted | src/core/ca_repository.py:121-179 | merging never removes or re-keys a stored source; a changed row is one of the incoming rows |
| CaRepository.SourcesPresent | src/core/ca_repository.py:121-179 | after merging, every incoming source's key is stored |
| CaRepository.UpsertAllOtherEvents | src/core/ca_repository.py:121-179 | merging one event's sources leaves every other event's sources untouched |
| CaRepository.UpsertAllSettles | src/core/ca_repository.py:121-179 | without empty reference ids, merging into unique rows succeeds, stays unique, stores every incoming key and holds the last incoming row for it |
| CaRepository.UpsertAllIdempotent | src/core/ca_repository.py:121-179 | merging the same sources twice gives the same table as merging them once |
| CaRepository.ReplaceRowsExact | src/core/ca_repository.py:182-245 | after delete-then-insert, the event's rows are exactly the new ones, and every other event's rows are unchanged |
| CaRepository.Prepared | src/core/ca_repository.py:255-257 | a record with an id is persisted as it is; one without is re-validated, and persisting fails exactly when that fails |
| CaRepository.PersistEffects | src/core/ca_repository.py:248-264 | the outcome of one persist (`PersistSpec`): a failed re-validation writes nothing; otherwise the main row holds the record, a source error leaves the child tables as they were, and success leaves the event's legs and provenance exactly the current lists, every source stored and other events untouched |
| CaRepository.PersistIdempotent | src/core/ca_repository.py:248-264 | persisting the same record twice leaves the tables as persisting it once (unique stored sources, no empty reference ids) |
| CaRepository.BatchSplit | src/core/ca_repository.py:267-277 | a batch (`BatchSpec`) runs its items in order, and the first error ends it |
| CaRepository.BatchCountIsLength | src/core/ca_repository.py:272-277 | an empty batch returns 0 and writes nothing; a successful batch returns its length |
| CaRepository.Repository.InsertOrUpdateCorporateAction | src/core/ca_repository.py:68-118 | the main table maps the event id to the new row; nothing else changes |
| CaRepository.Repository.ReplaceSources | src/core/ca_repository.py:121-179 | the sources table becomes the merge result, or stays as it was with the error when a statement fails (rollback); other tables are unchanged |
| CaRepository.Repository.ReplaceConsiderationLegs | src/core/ca_repository.py:182-216 | the event's legs are deleted and the current legs appended in order (none for a missing list); other tables are unchanged |
| CaRepository.Repository.ReplaceProvenance | src/core/ca_repository.py:219-245 | the event's provenance rows are deleted and the current ones appended in order; other tables are unchanged |
| CaRepository.Repository.Persist | src/core/ca_repository.py:248-264 | the tables and error are those of the persistence specification |
| CaRepository.Repository.PersistBatch | src/core/ca_repository.py:267-277 | the tables and result are those of the batch specification |
| LlmMerge.MakeRatio | src/processors/llm_extractor.py:108 | a ratio is built exactly when both terms are at least 1 |
| LlmMerge.RatioFromString | src/processors/llm_extractor.py:89-126 | empty or missing text gives no ratio, and any ratio given has both terms at least 1 |
| LlmMerge.SeparatedForms | src/processors/llm_extractor.py:113-124 | "a-for-b", "a for b", "a:b" and "a/b" give the ratio a/b, unreduced, when both are positive, and no ratio (no exception) when either is zero |
| LlmMerge.BareInteger | src/processors/llm_extractor.py:103-110 | a bare positive integer n gives the ratio n/1 |
| LlmMerge.ZeroRejected | src/processors/llm_extractor.py:103-124 | a string of zeros ("0", "000") gives no ratio and no exception |
| LlmMerge.DecimalZeroRejected | src/processors/llm_extractor.py:103-124 | a decimal zero ("0.0", "00.000") gives no ratio and no exception: the decimal branch fails on the zero and no pattern match follows |
| LlmMerge.HalfIsOneForTwo | src/processors/llm_extractor.py:103-110 | "0.5" gives the ratio 1/2 |
| LlmMerge.NewForOldRejected | src/processors/llm_extractor.py:93-124 | "a new for b old", for any digit strings a and b, gives no ratio: it is not a plain number and no position starts a pattern match |
| LlmMerge.SeparatorEndWithNew | src/processors/llm_extractor.py:113 | the separator with an optional "new" before it agrees with the pattern's separator wherever that one matches, and otherwise matches only after "new" |
| LlmMerge.NewForOldWithNew | src/processors/llm_extractor.py:93-113 | with "new" allowed, "a new for b old" has groups a and b and gives the ratio a/b (nothing for a zero term) |
| LlmMerge.MoneyFromLlm | src/processors/llm_extractor.py:129-135 | money is produced exactly when an amount is present and the upper-cased currency is three capital letters (the corrected, newline-free shape); it keeps the amount and its currency is the upper-cased currency |
| LlmMerge.MoneyRoundTrip | src/processors/llm_extractor.py:129-135 | valid money given back in its own terms is returned unchanged |
| LlmMerge.ConvertLeg | src/processors/llm_extractor.py:143-169 | a kept leg passes the leg rules (under the corrected, newline-free shapes) and has a known type |
| LlmMerge.ConvertLegOutcome | src/processors/llm_extractor.py:143-169 | a leg raises exactly when its type is known and its upper-cased ticker fails the security check, with that error; it is kept exactly when its type is known, nothing raises and the candidate built from the converted cash, the parsed ratio and the security passes the leg rules, and then the kept leg is that candidate; every other leg is skipped |
| LlmMerge.Survivors | src/processors/llm_extractor.py:141-169 | the loop keeps no more legs than it was given |
| LlmMerge.SurvivorsValid | src/processors/llm_extractor.py:141-169 | every leg the loop keeps passes the leg rules and has a known type |
| LlmMerge.AllKeptSurvive | src/processors/llm_extractor.py:142-166 | when every leg converts, all of them survive, each as its converted leg, in input order |
| LlmMerge.SurvivorsAppend | src/processors/llm_extractor.py:142-169 | the loop over two lists keeps what the first keeps followed by what the second keeps, and the first raising leg ends it |
| LlmMerge.SkippedLegVanishes | src/processors/llm_extractor.py:144-150 | a skipped leg can be removed from the input without changing the outcome |
| LlmMerge.ConsiderationSpec | src/processors/llm_extractor.py:138-170 | no input gives None; the call raises exactly when the leg loop raises; it gives None exactly when there is no input or no leg survives, and otherwise the surviving legs, non-empty, no longer than the input, each valid with a known type |
| LlmMerge.UnknownTypesDropped | src/processors/llm_extractor.py:143-150 | legs whose type is unknown are all dropped |
| LlmMerge.ConsiderationFromLlm | src/processors/llm_extractor.py:138-170 | the leg loop computes the specification result, including the exception raised by an invalid ticker |
| LlmMerge.LegLoop | src/processors/llm_extractor.py:141-169 | the loop over the legs returns exactly the legs `Survivors` keeps, in order, or the exception of the first leg that raises |
| LlmMerge.RaiseEndsLoop | src/processors/llm_extractor.py:153-157 | once a leg raises, the later legs do not change the outcome |
| LlmMerge.JsonBlockOf | src/processors/llm_extractor.py:290-300 | braced text is returned as it is; otherwise, when the first "{" comes before the last "}", the result is exactly that span, and in every other case the text is returned unchanged |
| LlmMerge.ExtractJsonBlockIdempotent | src/processors/llm_extractor.py:290-300 | extracting the block (`ExtractJsonBlock`) from an extracted block changes nothing |
| LlmMerge.MergedTerms | src/processors/llm_extractor.py:312-326 | the merge fails exactly when the legs raise; otherwise a parsed ratio, valid cash or surviving legs replace the old ones, which are kept when missing |
| LlmMerge.ApplyLlm | src/processors/llm_extractor.py:303-357 | a leg exception returns the base record; only dates, terms, action type, notes and the two extraction stamps can change; the action type either stays or becomes a string of the `ActionType` class dictionary (the thirteen types, `__module__` or `__doc__`) |
| LlmMerge.WithType | src/processors/llm_extractor.py:343-345 | only the action type can change, and it changes only to the non-blank stripped extracted type when that is a string of the `ActionType` class dictionary |
| LlmMerge.WithNotes | src/processors/llm_extractor.py:348-351 | only the notes can change |
| LlmMerge.MergeDateRule | src/processors/llm_extractor.py:329-340 | each date takes the extracted value when present and keeps the old one otherwise (the `Stamped` stage) |
| LlmMerge.MergeTermsAndTypeRule | src/processors/llm_extractor.py:312-345 | the terms are the merged terms, the type changes exactly when the stripped extracted type is non-blank and a string of the `ActionType` class dictionary, and the stamps are "v1-llm" and the model |
| LlmMerge.MergeNotesRule | src/processors/llm_extractor.py:348-351 | without the leg exception, a non-blank stripped note is joined onto the record's notes by `MergeNotes`, and a blank one leaves the notes as they were |
| LlmMerge.MergeNotesJoins | src/processors/llm_extractor.py:348-351 | `MergeNotes`: a note on empty notes becomes the notes; otherwise it is appended after " \| " |
| LlmMerge.TypeSwitchKeepsTerms | src/processors/llm_extractor.py:343-345 | naming only one of the thirteen types switches the type and keeps the terms |
| LlmMerge.TypeOnlyMerge | src/processors/llm_extractor.py:312-355 | a result that names only a stripped type changes the type when it is a non-blank string of the class dictionary, sets the two stamps, and changes nothing else |
| LlmMerge.ModuleNameSwitchesType | src/processors/llm_extractor.py:343-345 | as written, a record of a known type merged with `action_type="src.models.corporate_action_model"` takes that module name as its type, which is not an action type |
| LlmMerge.MergeCanBreakCoherency | src/processors/llm_extractor.py:303-357 | as written, switching a valid split to a cash dividend yields a record that construction would refuse |
| LlmMerge.ApplyLlmValidated | src/processors/llm_extractor.py:303-357 | the corrected merge keeps every constructed record constructed and a known type known, and any change it makes is a successful re-validation of the merge |
| SecSubmissions.PadCik | src/sources/sec_submissions.py:14-21 | the result is empty exactly when the stripped input is empty, and at least ten characters otherwise |
| SecSubmissions.PadCikOfDigits | src/sources/sec_submissions.py:14-21 | a digit CIK pads to digits of the same value, exactly ten of them when it has at most ten significant digits |
| SecSubmissions.PadCikIdempotent | src/sources/sec_submissions.py:14-21 | padding a padded digit CIK changes nothing |
| SecSubmissions.PadAppleCik | src/sources/sec_submissions.py:14-21 | "320193" pads to "0000320193" |
| SecSubmissions.Zipped | src/sources/sec_submissions.py:59 | the zipped rows are as many as the shortest column, and row i holds the i-th entry of each column |
| SecSubmissions.PyInt | src/sources/sec_submissions.py:66 | a digit string converts to its value |
| SecSubmissions.CikNumberOfDigits | src/sources/sec_submissions.py:66 | the numeric CIK (`CikNumber`) of a digit string is its value, leading zeros dropped |
| SecSubmissions.ItemOf | src/sources/sec_submissions.py:60-82 | the HTML URL exists exactly when there is a primary document, the text URL exactly when there is an accession number, and the form is stripped |
| SecSubmissions.HtmlUrlShape | src/sources/sec_submissions.py:69-71 | the HTML URL is the archive directory of the numeric CIK, then the accession with every dash removed, then the primary document |
| Text.RemoveChar | src/sources/sec_submissions.py:69 | the result holds no dash, is shorter than the input by exactly the number of dashes in it, and equals the input when it had no dash |
| Text.RemoveCharAppend | src/sources/sec_submissions.py:69 | removing a character distributes over concatenation, so every other character is kept, in order |
| SecSubmissions.TxtUrlShape | src/sources/sec_submissions.py:70-72 | the text URL is the archive directory of the numeric CIK, then the accession number as given and ".txt" |
| SecSubmissions.KeptForms | src/sources/sec_submissions.py:61-63 | with a non-empty form filter, every kept filing's form is in the filter |
| SecSubmissions.Kept | src/sources/sec_submissions.py:59-82 | the loop without a limit keeps no more filings than rows, and none when the CIK is not a number |
| SecSubmissions.RecentFilings | src/sources/sec_submissions.py:38-85 | no data gives no filings; otherwise the result is the prefix of the kept filings whose length is the smaller of their number and the limit (at least one) |
| SecSubmissions.LimitedPrefix | src/sources/sec_submissions.py:83-84 | once the limit is reached, later filings are not added |
| SecSubmissions.NonPositiveLimitKeepsOne | src/sources/sec_submissions.py:83-84 | a limit of zero or less still returns the first kept filing |
| SecSubmissions.SelectUpTo | src/sources/sec_submissions.py:59-84 | the loop returns the selected filings cut at the limit |
| SecSubmissions.KeptIsSelect | src/sources/sec_submissions.py:59-82 | the generic selection with the source's filter and item builder is the kept list |
| SecSubmissions.RecentCompanyFilings | src/sources/sec_submissions.py:38-85 | the method returns the specification list of recent filings |
| FilingParser.HeaderBlock | src/processors/filing_parser.py:10-15 | a block exists exactly when an open tag precedes a close tag; it is the text between the first open tag and the first close tag after it |
| FilingParser.EntryShape | src/processors/filing_parser.py:18-24 | a parsed key (`Entry`, through `MatchKeyValue`) comes from a key group of at least two characters, and after stripping it is non-empty (one letter for "A : x"), starts with a capital, holds only capitals, whitespace and dashes and is stripped; the value is non-empty and stripped |
| FilingParser.MatchRoundTrip | src/processors/filing_parser.py:18 | the pattern reads back the key and value of a well-formed "KEY: value" line |
| FilingParser.EntryRoundTrip | src/processors/filing_parser.py:20-24 | a well-formed header line yields its key and value |
| FilingParser.OneLetterKeyIgnored | src/processors/filing_parser.py:18 | a line "K: v" whose key is one capital letter directly followed by the colon yields no header entry, since the key group needs two characters |
| FilingParser.CollectLastWins | src/processors/filing_parser.py:20-25 | a key is in the header exactly when some line yields it, and its value comes from the last such line |
| FilingParser.HeaderLastWins | src/processors/filing_parser.py:20-25 | the last-wins rule of `FilingHeader`, stated over the lines of the block |
| FilingParser.HeaderKeysShaped | src/processors/filing_parser.py:18-25 | every key in the header has the key shape |
| FilingParser.CollectLines | src/processors/filing_parser.py:20-25 | the line loop computes the specification dictionary |
| FilingParser.ParseFilingHeader | src/processors/filing_parser.py:4-27 | the method computes the specification header, and content without a block gives an empty header |
| FilingParser.MentionsIff | src/processors/filing_parser.py:41-52 | a keyword group is mentioned exactly when one of its words occurs |
| FilingParser.HasItemCode | src/processors/filing_parser.py:55-60 | an item code is found exactly when "item", whitespace and the code occur at some position |
| FilingParser.FirstKeywordRule | src/processors/filing_parser.py:41-52 | the label of the first keyword group mentioned, or none when none is |
| FilingParser.FirstItemRule | src/processors/filing_parser.py:55-60 | the label of the first item code found, or none when none is |
| FilingParser.UnclassifiedIff | src/processors/filing_parser.py:39-62 | `Classify` answers "Unclassified" exactly when no keyword group and no item code occurs in the lower-cased content |
| FilingParser.ClassifyFirstKeywordRule | src/processors/filing_parser.py:41-52 | the first keyword group mentioned decides the label |
| FilingParser.ClassifyFirstItemRule | src/processors/filing_parser.py:54-60 | without keywords, the first item code found decides the label |
| FilingParser.MergerWinsOverAll | src/processors/filing_parser.py:41-42 | any merger word gives "Merger/Acquisition", whatever else occurs |
| FilingParser.ReverseSplitRedundant | src/processors/filing_parser.py:45 | "reverse stock split" cannot decide anything "split" does not already decide |
| FilingParser.ClassifyIgnoresCase | src/processors/filing_parser.py:39 | upper- or lower-casing the content does not change the label |
| Exchanges.AliasLastWins | src/utils/exchange_resolver.py:44-49 | an alias is in the table (`AliasTable`) exactly when some row has both alias and MIC, and it maps to the MIC of the last such row |
| Exchanges.NameFirstWins | src/utils/exchange_resolver.py:44-51 | a MIC is in the name table (`NameTable`) exactly when some row has MIC and name, and it maps to the name of the first such row |
| Exchanges.ToMicOf | src/utils/exchange_resolver.py:53-58 | an empty name gives None; otherwise the normalised name is looked up in the alias table |
| Exchanges.MicToNameOf | src/utils/exchange_resolver.py:60-66 | an empty MIC gives None; otherwise the normalised MIC's name, or the normalised MIC itself when unknown |
| Exchanges.UnreadableFallsBack | src/utils/exchange_resolver.py:38-42 | with an unreadable file no alias resolves and every MIC names itself |
| Exchanges.KeyIdempotent | src/utils/exchange_resolver.py:57 | normalising a normalised key (`Key`, strip then upper-case) changes nothing |
| Exchanges.RowAliasResolves | src/utils/exchange_resolver.py:44-58 | the alias of a row with no later row for it resolves to that row's MIC |
| Exchanges.ExchangeResolver.Load | src/utils/exchange_resolver.py:35-51 | the tables become those of the file's rows (empty for an unreadable file) |
| Exchanges.ExchangeResolver.Fill | src/utils/exchange_resolver.py:44-51 | the row loop fills the two tables from the rows |
| Exchanges.ExchangeResolver.EnsureLoaded | src/utils/exchange_resolver.py:26-33 | afterwards the resolver is loaded, and a loaded resolver is not changed |
| Exchanges.ExchangeResolver.ToMic | src/utils/exchange_resolver.py:53-58 | the answer is the specification lookup; an empty name changes nothing and otherwise the tables are loaded |
| Exchanges.ExchangeResolver.MicToName | src/utils/exchange_resolver.py:60-66 | the answer is the specification lookup; an empty MIC changes nothing and otherwise the tables are loaded |
| EnrichmentMetrics.Step | src/utils/metrics.py:22-31 | one more processed action, and one more in each counter whose condition holds (estimated only without a date) |
| EnrichmentMetrics.StepBounded | src/utils/metrics.py:22-31 | recording keeps every counter between zero and the processed count |
| EnrichmentMetrics.ReplayCounts | src/utils/metrics.py:22-31 | after any events, processed is their number and each counter the number of events its condition holds for |
| EnrichmentMetrics.ReplayBounded | src/utils/metrics.py:22-31 | counters reached by recording are bounded |
| EnrichmentMetrics.SummaryOf | src/utils/metrics.py:33-43 | the rates times max(processed, 1) give the definitive and definitive-plus-estimated counts, and bounded counters give 0 ≤ fill rate ≤ estimate-or-definitive rate ≤ 1 |
| EnrichmentMetrics.FourEventScenario | tests/test_metrics.py:7-25 | the four recorded events give the counts 4, 2, 1, 1, 2 and the rates 0.5 and 0.75 |
| EnrichmentMetrics.Metrics.Record | src/utils/metrics.py:22-31 | the counters advance by one step and stay bounded |
| EnrichmentMetrics.Metrics.Summarize | src/utils/metrics.py:33-43 | the summary of the current counters, with rates in order within [0, 1] |
| DatabaseUrl.Renamed | src/core/db.py:73-75 | "postgres://" becomes "postgresql://" with the rest kept; anything else is unchanged |
| DatabaseUrl.SchemesDisjoint | src/core/db.py:74-80 | no URL starts with two of the four schemes |
| DatabaseUrl.RewriteRules | src/core/db.py:68-82 | `NormalizePostgresUrl`: psycopg2 and driverless URLs become psycopg with the rest kept, Heroku URLs are renamed first, and all others are returned as they are |
| DatabaseUrl.NormalizeIdempotent | src/core/db.py:68-82 | rewriting a rewritten URL changes nothing |
| DailyIndex.Quarter | src/test.py:48-49 | the quarter is between 1 and 4 and contains the month |
| DailyIndex.QuarterLabel | src/test.py:49 | "QTR" followed by the quarter digit |
| DailyIndex.FirstRule | src/test.py:95-99 | the index of the first "-----" line from a position, or the end when there is none |
| DailyIndex.DataStart | src/test.py:95-99 | 0 exactly when no line starts with "-----"; otherwise just after the first such line |
| DailyIndex.FindDataStart | src/test.py:95-99 | the scan returns the specification data start |
| DailyIndex.Window | src/test.py:102 | the lines read (up to `SliceEnd`) are a contiguous slice from the data start, 2 × max_entries of them when available and max_entries is not negative |
| DailyIndex.NegativeMaxEntries | src/test.py:102 | a negative max_entries cuts lines off the end, as a Python slice does |
| DailyIndex.ParseLineShape | src/test.py:103-117 | a filing parsed by `ParseLine` has as its link the archive base plus its file name, and its fields are stripped and hold no "\|" |
| DailyIndex.ParseLineRoundTrip | src/test.py:106-117 | a line joined from five clean fields parses back to those fields |
| DailyIndex.KeptFrom | src/test.py:102-118 | every kept filing comes from some line of the window |
| DailyIndex.DailyIndexBound | src/test.py:102 | at most 2 × max_entries filings are returned |
| DailyIndex.DailyIndexShape | src/test.py:87-123 | every filing `DailyIndexOf` returns has its link, and all five of its fields (CIK, company name, form type, date filed, filename) are stripped |
| DailyIndex.KeepParsed | src/test.py:102-118 | the line loop keeps exactly the lines that parse, in order |
| DailyIndex.ParseDailyIndex | src/test.py:87-123 | the method returns the specification list of filings |

## Left out

- I/O is not modelled: HTTP requests to EDGAR, file reads (`pd.read_csv`), printing and logging. Their results are parameters: the daily-index text, the submissions data, and the CSV rows or `None` for an unreadable file.
- The language-model call, `json.loads`, `model_validate` and the follow-up prompt are not modelled. The merge starts from an already-parsed `LlmResult`.
- Postgres and SQLAlchemy are modelled as four in-memory tables. Each helper's transaction is modelled by committing that helper's result or leaving its table unchanged. Serial ids, timestamps (`created_at`, `updated_at`, `now()`) and the JSON text of `details_json` are left out: the main row holds the record itself.
- Concurrency is not modelled: the resolver's lock, and the module-level singletons.
- SHA-256 and UUIDv5 are a `digest` parameter applied to the `|`-joined tokens.
- `Fraction.limit_denominator(1000)` is a `limit` parameter. It is consulted only when the exact fraction's denominator exceeds 1000.
- Environment variables are parameters: the model name (`OPENAI_MODEL`) and the minimum confidence (`LLM_DATE_MIN_CONFIDENCE`, whose default is 0.85).
- Floating point is not modelled: confidences are exact reals. Number formatting is also left out:
  - `f"{conf:.2f}"` in the display text;
  - `round(…, 4)` in the metrics summary;
  - `Decimal` amounts, which are kept as their text.
- The `__module__` and `__doc__` strings of the `ActionType` class are parameters of the merge (`moduleName`, `docString`). Their values depend on how the package is imported and on the interpreter's docstring handling.
- Strings are ASCII: `strip`, `lower`, `upper` and `\s` are modelled on ASCII characters only.
- DailyIndex.ParseLineShape: the `try`/`except` around building the filing dict is not modelled, because nothing in it can raise.
- The display text is modelled as its parts (base text, method, confidence), not as the formatted string.
- The record's datetime fields, `as_decimal`, and the serialisation helpers (`_details_json`, `model_dump`) are not modelled.
- SecSubmissions.PyInt: `int()` on text that is not plain digits is modelled as failure (`None`). Python's acceptance of underscores and other Unicode digits is not modelled.
- SecSubmissions.PadCikOfDigits: the length is stated as exactly ten only for at most ten significant digits. A longer CIK is left at its own length, as `zfill` does.
- CorporateActionModel.ReconstructIsIdentity: it assumes a digest that never returns the empty string. A UUID string never does.
- CaRepository.PersistIdempotent: it is stated only for stored sources that satisfy the unique indexes and incoming sources without an empty `reference_id`. An empty `reference_id` is not NULL, so a repeat violates the unique index and the second persist fails.
- Batch persistence stops at the first error, because `persist_corporate_actions` lets the first exception propagate. The model does not skip a failing item and continue.
- The identity appends every present date in its fixed order, as `_generate_event_id` does. The model does not use only the first present date.
- CorporateActionModel.NormalizeTicker: it uses the corrected, newline-free ticker shape. It does not accept a ticker with one trailing newline ("AAPL\n"), which `re.match` with `$` at corporate_action_model.py:93-98 accepts (see "## Findings").
- CorporateActionModel.ValidateSecurity: it uses the corrected, newline-free shapes for the ticker, MIC, ISIN and CUSIP, not the `$`-anchored patterns that also accept one trailing newline.
- CorporateActionModel.ValidateTerms: it uses the corrected, newline-free currency shape, so it does not accept currency "USD\n", which the source accepts.
- CorporateActionModel.Construct: it uses the corrected field shapes and the corrected type set, the thirteen constants. The source also accepts the `__module__` and `__doc__` strings of `ActionType` (corporate_action_model.py:295) and values with one trailing newline. So the model's "unknown action type fails" is the intended rule, not the as-written one.
- CorporateActionModel.ConstructSucceedsIff: it characterises success under the same corrected type set and field shapes as Construct.
- LlmMerge.MoneyFromLlm: it builds money through the corrected currency shape. The source also produces money for a currency such as "usd\n", which upper-cases to "USD\n" and passes the `$` pattern (corporate_action_model.py:94, :107).
- CorporateActionModel.ValidateLegs: the leg rules inside it (`LegError`) check money with the corrected, newline-free currency shape and securities with the corrected ValidateSecurity. So a leg with currency "USD\n" or ticker "AAPL\n" is rejected in the model, while the source's `ConsiderationLeg` validators (corporate_action_model.py:93-98, :107, :137-141) accept it.
- LlmMerge.ConvertLeg: it validates the ticker with the corrected ValidateSecurity and the candidate leg with the corrected leg rules. So a leg with ticker "aapl\n" raises in the model, while `_consideration_from_llm` (llm_extractor.py:143-169) keeps it.
- LlmMerge.ConvertLegOutcome: the security check inside it is the corrected ValidateSecurity, so a ticker with one trailing newline raises in the model but not in the source.
- The primary-security resolver and the filing-link converter are not part of this model. Neither is the CLI around the daily index in src/test.py (`get_latest_8k_filings`, `get_recent_8k_alternative` and the fallback list).

## Findings

| source | as written | input that shows it | evidently intended | confidence | as-written member | corrected member |
|---|---|---|---|---|---|---|
| src/models/corporate_action_model.py:295 | the allowed set is every string in `ActionType.__dict__`, which also holds `__module__` and `__doc__` | `action_type="src.models.corporate_action_model"` is accepted | only the thirteen action-type constants | not executed | CorporateActionModel.ModuleNamePassesActionTypeCheck | CorporateActionModel.ActionTypesArePlainLabels |
| src/models/corporate_action_model.py:93-98 | `re.match` with `$` also matches before one trailing newline | ticker "AAPL\n", CIK "0000320193\n" and currency "USD\n" are accepted | the whole value matches the pattern, with no newline | not executed | CorporateActionModel.TrailingNewlineAccepted | CorporateActionModel.CorrectedShapesRejectNewline |
| src/processors/llm_extractor.py:343-345 | the type test uses every string in `ActionType.__dict__`, which also holds `__module__` and `__doc__` | merging `action_type="src.models.corporate_action_model"` into a record of a known type sets that module name as the type | only the thirteen action-type constants replace the type | not executed | LlmMerge.ModuleNameSwitchesType | LlmMerge.ApplyLlmValidated |
| src/processors/llm_extractor.py:303-357 | the merged record is built with `model_copy(update=…)`, which skips validation | a valid forward split merged with `action_type="cash_dividend"` and no cash becomes an incoherent record | the merge keeps records valid: validation failure falls back to the base record | not executed | LlmMerge.MergeCanBreakCoherency | LlmMerge.ApplyLlmValidated |
| src/processors/llm_extractor.py:93-113 | the documentation lists "1 new for 10 old" as an accepted form, but the pattern wants the separator (`-for-`, `for`, `:` or `/`) right after the first number | "a new for b old" for any digit strings a and b, such as "1 new for 10 old", gives no ratio | the word "new" may stand between the first number and the separator, so the text reads as a for b | not executed | LlmMerge.NewForOldRejected | LlmMerge.NewForOldWithNew |
