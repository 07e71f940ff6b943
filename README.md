# URL matching pipeline: a Dafny model

This project models the matching core of a service that pairs the URLs of an
old site (the DE sheet) with the URLs of a new one (the RASTREIO sheet) for
redirect planning.

- **`services/similarityService.js`** scores every DE row against every
  RASTREIO row and ranks the candidates. The score is a weighted mix of four
  field scores:
  - a slug heuristic: slug cleaning, a product-category lexicon, and 0.9, 0.1
    and 0.8 short-cuts;
  - three Levenshtein text similarities.

  It also computes summary statistics and a keyword (Jaccard) similarity.
- **`services/geminiService.js`** re-ranks each DE row's top three candidates
  with a language model's judgement. This covers:
  - the JSON array extraction from the model's answer;
  - the fallback reasons when a call fails;
  - merging and re-sorting by the effective score;
  - the progress values the loop reports;
  - the circuit breaker that stops after the fourth failure.
- **`server.js`** holds the progress store, a map from session id to the
  latest progress record, written by `updateProgress` and by the catch block.
  The event stream reads it (`checkProgress`) and deletes a record once its
  status is terminal. The `/api/process` handler writes one record at each
  stage, following a fixed schedule of percentages.

Modules:

- `Wrappers`: the `Option` type.
- `Text`: ASCII `toLowerCase`, `split` and `includes`.
- `Sorting`: a stable descending sort with a numeric comparator, as
  `Array.prototype.sort`.
- `Records`: rows, candidates and results.
- `Levenshtein`: the distance matrix.
- `Slugs`: `cleanSlug`, the category lexicon and its lookups.
- `Similarity`: the field scores, the weights, the cross product and the
  statistics.
- `Keywords`: `extractKeywords` and the semantic similarity.
- `Gemini`: the enhancement service.
- `Server`: the `ProgressStore` class and the `/api/process` handler.

Scores are `real` numbers. The model and the model's answer are not called:
each call's outcome is a parameter (`responses`), and so is `JSON.parse`
(`parse`).

Where the code does something other than its own comments, log messages or
prompt suggest, the model follows the code:

- The loop's catch block counts Gemini API errors toward a circuit breaker
  (`services/geminiService.js:92-107`). But `enhanceSingleMatch` catches API
  errors itself and returns fallback lists (`services/geminiService.js:134-148`).
  `parseGeminiResponse` does the same for parse errors
  (`services/geminiService.js:242-245`). So neither reaches the breaker. Only a
  rejection without a `message` escapes: it makes `error.message.includes`
  throw inside the catch block. `Gemini.EnhanceSingleMatch` and
  `Gemini.ProcessRecordOutcome` state this.
- The warning at `services/geminiService.js:105` says the loop is "continuing
  without AI enhancement". But the next line `break`s, so the remaining DE rows
  are missing from the result. `Gemini.EnhanceMatchesWithProgress` states
  `|enhanced| <= |results|`, and `Gemini.LoopResult` says where the loop stops.
- The prompt tells the model never to match "blusa" with "bermuda"
  (`services/geminiService.js:159` and `:185`). But the slug lexicon files both
  words under `roupa` (`services/similarityService.js:224` and `:227`). So the
  slug heuristic scores `blusa-azul` against `bermuda-jeans` 0.9, its
  same-category score (`Similarity.BlusaBermudaShareCategory`).
- The empty-sheet branch writes step `error` with percentage 0
  (`server.js:170`). `updateProgress` gives every percentage but 100 the status
  `processing` (`server.js:159`). The stream deletes a record only when its
  status is `completed` or `error` (`server.js:118-121`). So it never deletes
  that record (`Server.EmptySheetRecordStays`).

## Model

| member | source | states |
|---|---|---|
| Text.Lower | services/similarityService.js:104 | lower-casing keeps the length and maps each character by ASCII `toLowerCase` |
| Text.LowerOfLower | services/similarityService.js:270 | a string without upper-case ASCII letters is its own lower-case form |
| Text.JoinSplit | services/similarityService.js:268 | `split('-')` loses nothing: joining the parts with the separator gives back the slug |
| Text.SplitLeadingWord | services/similarityService.js:268 | a leading word without the separator becomes the first part of the split |
| Text.ContainsIffOccurs | services/similarityService.js:89 | `includes` holds exactly when the substring occurs at some index |
| Text.ContainsSameLength | services/similarityService.js:89 | a string includes one at least as long only when the two are equal |
| Sorting.SortDesc | services/similarityService.js:39 | the comparator sort returns a permutation of its input in descending key order |
| Sorting.Insert | services/similarityService.js:39 | inserting into a sorted list keeps it sorted and adds exactly the new element |
| Sorting.SortDescStable | services/similarityService.js:39 | elements with equal keys keep their input order (the sort is stable) |
| Sorting.SortDescOfSorted | services/similarityService.js:39 | an already sorted list is left unchanged |
| Sorting.InsertWithKey | services/similarityService.js:39 | the new element lands before every element with the same key, so the earlier element of an equal pair stays first (the sort is stable) |
| Levenshtein.LevenshteinDistance | services/similarityService.js:134-166 | the array fill returns the edit distance; it is 0 iff the strings are equal, and at most the longer length |
| Levenshtein.FillRow | services/similarityService.js:151-163 | filling a row makes every cell hold the distance between the two prefixes |
| Levenshtein.CellZeroIff | services/similarityService.js:151-163 | a matrix cell is 0 exactly when the two prefixes are equal |
| Levenshtein.DistanceZeroIff | services/similarityService.js:135 | the distance is 0 exactly when the strings are equal |
| Levenshtein.DistanceAtMostLonger | services/similarityService.js:134-166 | the distance never exceeds the longer length |
| Levenshtein.CellAtLeastLengthGap | services/similarityService.js:151-163 | each cell is at least the difference of the prefix lengths |
| Levenshtein.DistanceSymmetric | services/similarityService.js:134-166 | swapping the two strings does not change the distance |
| Levenshtein.DistanceToEmpty | services/similarityService.js:136-137 | against an empty string the distance is the other string's length |
| Slugs.KeepSlugChars | services/similarityService.js:105 | removing special characters keeps only `a-z`, `0-9`, `-` and `_`, all taken from the input; which ones and in what order is given by `Slugs.KeepSlugCharsConcat` and `Slugs.KeepSlugCharsSingle` |
| Slugs.KeepSlugCharsConcat | services/similarityService.js:105 | the removal distributes over concatenation, so the kept characters stay in input order |
| Slugs.KeepSlugCharsSingle | services/similarityService.js:105 | a single character is kept exactly when it is a slug character |
| Slugs.CollapseHyphens | services/similarityService.js:106 | collapsing hyphen runs leaves no two hyphens in a row, keeps the first character, and keeps every non-hyphen character, in order |
| Slugs.CleanSlugIsClean | services/similarityService.js:102-108 | a cleaned slug has only slug characters, no doubled hyphen and no hyphen at either end |
| Slugs.CleanSlugOfClean | services/similarityService.js:102-108 | a slug that is already clean is returned unchanged |
| Slugs.CleanSlugIdempotent | services/similarityService.js:102-108 | cleaning twice is cleaning once |
| Slugs.CleanSlugFixedPoints | services/similarityService.js:102-108 | `cleanSlug(s) == s` exactly when `s` is clean |
| Slugs.FirstCategory | services/similarityService.js:268-275 | the category of the first word found in the lexicon, and none exactly when no word is found |
| Slugs.SlugCategoryLeadingWord | services/similarityService.js:268-273 | a slug whose first word is in the lexicon takes that word's category |
| Slugs.SlugCategoryNone | services/similarityService.js:275 | a slug none of whose lower-cased words is in the lexicon has no category |
| Slugs.ExtractProductCategory | services/similarityService.js:221-276 | the corrected, lexicon-only lookup: the loop returns the category of the first lexicon word of the slug, or null exactly when no word is in the lexicon; the as-written lookup, which also hits inherited keys, is `Slugs.FirstPropertyAsWritten` |
| Slugs.PropertyLookup | services/similarityService.js:270 | `categories[word]` finds a lexicon entry exactly when the word is listed, and an inherited member exactly for the inherited keys |
| Slugs.FirstPropertyAsWritten | services/similarityService.js:268-275 | the as-written loop returns nothing exactly when no word hits any property |
| Slugs.FirstPropertyAgrees | services/similarityService.js:268-275 | without inherited keys, the as-written loop agrees with the lexicon-only lookup |
| Slugs.InheritedKeyActsAsCategory | services/similarityService.js:270-271 | as written, `constructor-…` finds the inherited `constructor` member as if it were a category |
| Slugs.ConstructorSlugHasNoCategory | services/similarityService.js:222-266 | with the lexicon alone, `constructor-` followed by an unlisted word has no category |
| Slugs.InheritedKeyIsNoCategory | services/similarityService.js:222-266 | `constructor` and `__proto__` are not lexicon words |
| Slugs.AreIncompatibleCategories | services/similarityService.js:284-302 | two categories are incompatible exactly when they differ |
| Slugs.IncompatibleIffDistinct | services/similarityService.js:284-302 | the pair table makes every two distinct categories incompatible, symmetrically |
| Slugs.AccentedKeysHaveForeignChar | services/similarityService.js:260-265 | each accented lexicon key holds a character that `cleanSlug` removes |
| Slugs.AccentedKeysUnreachable | services/similarityService.js:102-108 | no word of a cleaned slug is an accented lexicon key |
| Similarity.TextSimilarity | services/similarityService.js:116-126 | the text score lies in [0, 1] and is 0 when either text is empty |
| Similarity.TextSimilarityIsNormalisedDistance | services/similarityService.js:120-125 | for distinct non-empty texts the score is 1 minus the lower-case distance over the longer length |
| Similarity.TextSimilarityOneIff | services/similarityService.js:116-126 | the text score is 1 exactly when both texts are non-empty and equal after lower-casing |
| Similarity.TextSimilaritySymmetric | services/similarityService.js:116-126 | the text score does not depend on argument order |
| Similarity.SlugSimilarity | services/similarityService.js:64-95 | the slug score lies in [0, 1] and is 0 when either slug is empty |
| Similarity.SlugSimilarityOneIff | services/similarityService.js:64-73 | the slug score is 1 exactly when both slugs are non-empty and clean to the same text |
| Similarity.SlugSimilaritySymmetric | services/similarityService.js:64-95 | the slug score does not depend on argument order |
| Similarity.SameCategoryScoresHigh | services/similarityService.js:79-81 | distinct clean slugs of the same category score 0.9 |
| Similarity.BlusaBermudaShareCategory | services/similarityService.js:79-81 | `blusa-azul` against `bermuda-jeans` scores 0.9 |
| Similarity.CategoryMismatchScoresLow | services/similarityService.js:84-86 | slugs of two different categories score 0.1, even when one contains the other |
| Similarity.ContainedSlugScores | services/similarityService.js:89-91 | without a category signal, a cleaned slug contained in the other scores 0.8 |
| Similarity.SlugSimilarityAsWritten | services/similarityService.js:64-95 | the as-written slug score, with inherited-key lookups, still lies in [0, 1] and is 0 on an empty slug |
| Similarity.AsWrittenAgreesWithoutInheritedWords | services/similarityService.js:64-95 | without inherited keys in either slug, the as-written and corrected scores agree |
| Similarity.InheritedKeyScoresAsSameCategory | services/similarityService.js:79-81 | as written, two distinct clean slugs that both hit `constructor` score 0.9 |
| Similarity.ConstructorSlugExample | services/similarityService.js:270 | as written, `constructor-azul` against `constructor-rosa` scores 0.9 |
| Similarity.NoCategoryScoresByText | services/similarityService.js:94 | distinct clean slugs of equal length with no category fall through to the text score |
| Similarity.NoCategoryNotNineTenths | services/similarityService.js:94 | such slugs whose length is not a multiple of 10 never score 0.9 |
| Similarity.ConstructorSlugCorrectedExample | services/similarityService.js:94 | with the lexicon-only lookup, `constructor-azul` against `constructor-rosa` is scored by text |
| Similarity.ConstructorSlugCorrectedNotNineTenths | services/similarityService.js:94 | with the lexicon-only lookup, that pair does not score 0.9 |
| Similarity.TextScoreNineTenths | services/similarityService.js:125 | a text score of 0.9 needs a distance of exactly a tenth of the longer length |
| Similarity.EqualLengthScoreNotNineTenths | services/similarityService.js:125 | distinct texts of equal length not a multiple of 10 never score 0.9 |
| Similarity.NormalizeWeights | services/similarityService.js:53-56 | the normalised weights sum to 1, each is its weight divided by the sum, and non-negative weights stay non-negative |
| Similarity.DivideAll | services/similarityService.js:55 | dividing each weight divides the sum |
| Similarity.FieldScoresOf | services/similarityService.js:16-19 | each of the four field scores lies in [0, 1] |
| Similarity.ScoreCandidate | services/similarityService.js:14-38 | a candidate keeps its RASTREIO row and field details, and its clamped score lies in [0, 1] |
| Similarity.ClampIsNoOpForConvexWeights | services/similarityService.js:31 | with non-negative weights summing to 1, the clamp never changes the weighted sum |
| Similarity.ScoreAll | services/similarityService.js:14-38 | scoring keeps the RASTREIO rows in order, each scored against the DE row |
| Similarity.RankCandidates | services/similarityService.js:14-39 | the ranked candidates are a permutation of the RASTREIO rows, in descending score order |
| Similarity.RankingIsStable | services/similarityService.js:39 | candidates with equal scores keep their RASTREIO order |
| Similarity.CalculateSimilarities | services/similarityService.js:9-46 | one result per DE row in input order; each holds every RASTREIO row exactly once, sorted by score, scored with the normalised weights |
| Similarity.ComparisonCount | services/similarityService.js:9-46 | the cross product holds exactly \|DE\| × \|RASTREIO\| scores |
| Similarity.AllScoresCount | services/similarityService.js:310 | flattening results with m candidates each gives \|results\| × m scores |
| Similarity.MaxOf | services/similarityService.js:315 | the maximum is one of the scores and bounds them all from above |
| Similarity.MinOf | services/similarityService.js:316 | the minimum is one of the scores and bounds them all from below |
| Similarity.CountAtLeastMonotone | services/similarityService.js:317-318 | a higher threshold counts no more scores |
| Similarity.CountAtLeastExtremes | services/similarityService.js:317-318 | the count is 0 exactly when every score is below the threshold, and the number of scores exactly when every score reaches it |
| Similarity.CountAtLeastConcat | services/similarityService.js:317-318 | counting over a concatenation adds the counts of the parts |
| Similarity.SumBetween | services/similarityService.js:314 | the sum of scores in [low, high] lies between n·low and n·high |
| Similarity.AverageBetween | services/similarityService.js:314 | the average of scores in [low, high] lies in [low, high] |
| Similarity.AverageTimesLength | services/similarityService.js:314 | the average times the number of scores is their sum |
| Similarity.GetSimilarityStats | services/similarityService.js:309-320 | the count is the number of scores; the 80 and 90 counts are the scores at or above 0.8 and 0.9; the average is the mean; average, max and min exist iff there is a score, max and min are scores bounding all the others, and min ≤ average ≤ max |
| Keywords.Normalize | services/similarityService.js:195-196 | each word or space character is lower-cased in place and each other character becomes a space, keeping the length |
| Keywords.TokensConcat | services/similarityService.js:197 | splitting on whitespace keeps every non-space character, in order |
| Keywords.TokensChars | services/similarityService.js:197 | every character of a token comes from the text |
| Keywords.TokensAfterWord | services/similarityService.js:197 | a non-empty word without spaces followed by a space splits off as the first token, the rest splitting on its own |
| Keywords.TokensAfterSpace | services/similarityService.js:197 | a leading space yields no token |
| Keywords.KeepKeywords | services/similarityService.js:198-199 | the filter keeps exactly the words longer than 2 that are not stop words; order and repeats are given by `Keywords.KeepKeywordsConcat` and `Keywords.KeepKeywordsSingle` |
| Keywords.KeepKeywordsConcat | services/similarityService.js:198-199 | the filter distributes over concatenation, so kept words stay in order, once per occurrence |
| Keywords.KeepKeywordsSingle | services/similarityService.js:198-199 | a single word is kept exactly when it is longer than 2 and not a stop word |
| Keywords.ExtractKeywords | services/similarityService.js:193-200 | keywords are tokens of the normalised text, lower-case word characters, longer than 2 and not stop words, and every such token of the text is kept |
| Keywords.SemanticSimilarityAsWritten | services/similarityService.js:174-186 | the as-written score is non-negative and 0 when a text or its keyword list is empty |
| Keywords.RepeatedKeywordExceedsOne | services/similarityService.js:182-185 | as written, keyword lists `[w, w]` against `[w]` give the ratio 2 |
| Keywords.RepeatedWordAsWritten | services/similarityService.js:174-186 | as written, a repeated keyword against itself scores 2 |
| Keywords.RepeatedWordCorrected | services/similarityService.js:174-186 | with set intersection, the same input scores 1 |
| Keywords.KeywordJaccard | services/similarityService.js:182-185 | the set ratio lies in [0, 1] and is 1 exactly when both keyword sets are equal |
| Keywords.SemanticSimilarity | services/similarityService.js:174-186 | the corrected score lies in [0, 1] and is 0 when a text or its keyword list is empty |
| Keywords.SemanticSimilarityOneIff | services/similarityService.js:174-186 | the corrected score is 1 exactly when both texts have keywords and the same keyword set |
| Keywords.SemanticSimilaritySymmetric | services/similarityService.js:174-186 | the corrected score does not depend on argument order |
| Keywords.AsWrittenIsJaccardWithoutRepeats | services/similarityService.js:182-185 | without repeated keywords, the as-written ratio equals the set ratio |
| Gemini.FirstIndexOf | services/geminiService.js:219 | the index of the first `[`, or none when there is no `[` |
| Gemini.LastIndexOf | services/geminiService.js:219 | the index of the last `]`, or none when there is no `]` |
| Gemini.ExtractJsonArray | services/geminiService.js:219-222 | a match exists iff some `[` precedes some `]`; it spans the first `[` to the last `]` |
| Gemini.FindByUrl | services/geminiService.js:227 | `find` returns the first element with the URL, and nothing exactly when none has it |
| Gemini.Fallback | services/geminiService.js:244 | every candidate keeps its score as model score, with the given reason |
| Gemini.ParseGeminiResponse | services/geminiService.js:216-246 | one answer per candidate in order, each score is the candidate's or in [0, 1], and no array or a failed parse gives the `Parse error` fallback |
| Gemini.ParsedAnswerScores | services/geminiService.js:226-239 | a candidate the model scored gets the clamped score in [0, 1] and the model's reason, or `No reason provided` when it gave none; an unscored one keeps its score with `Not analyzed by Gemini` |
| Gemini.ErrorReason | services/geminiService.js:138-148 | a `404 Not Found` message gives `Model not available`, otherwise an `API key` message gives `API key issue`, otherwise `Gemini API error` |
| Gemini.EnhanceSingleMatch | services/geminiService.js:121-150 | without a client every candidate falls back; a response is the parsed answer; a rejection with a message gives the fallback for its reason; the call throws exactly on a rejection without a message; each answer keeps its candidate, in order |
| Gemini.EnhancedScoresBounded | services/geminiService.js:121-150 | with candidate scores in [0, 1], every returned model score lies in [0, 1] |
| Gemini.AtLeast | services/geminiService.js:50-51 | the filter keeps every candidate reaching `minScore` and no other, and is empty exactly when none does |
| Gemini.AtLeastConcat | services/geminiService.js:50-51 | filtering a concatenation filters each part, so the filter keeps the input order |
| Gemini.AtLeastSingle | services/geminiService.js:51 | a single candidate is kept exactly when it reaches `minScore` |
| Gemini.TopCandidates | services/geminiService.js:50-52 | the first min(3, n) candidates of the filter, where n is how many reach `minScore`; none exactly when no candidate does |
| Gemini.AtLeastOfRanked | services/geminiService.js:50-51 | on ranked candidates the filter is a prefix, and everything after it is below `minScore` |
| Gemini.TopCandidatesOfRanked | services/geminiService.js:50-52 | on ranked candidates the top list is a prefix, and fewer than three means nothing else qualifies |
| Gemini.MergeCandidate | services/geminiService.js:63-74 | a candidate with an answer for its URL gets that answer's score and reason, and the mean of both scores as final score; without one it is unchanged; row, score and details are always kept |
| Gemini.Merge | services/geminiService.js:63-74 | the merge keeps every candidate in place, with its row, score and details, and merges each one with the answer list |
| Gemini.FinalScoreBetween | services/geminiService.js:70 | the final score lies between the candidate's score and the model's score |
| Gemini.EffectiveScoreOfMerged | services/geminiService.js:78 | with non-negative scores, the sort key is the final score when there is one, otherwise the score |
| Gemini.ProcessRecordOutcome | services/geminiService.js:48-91 | a record is skipped iff no candidate reaches `minScore`; otherwise it fails iff the call is rejected without a message; a re-ranked record is a permutation of the answer merged into all its candidates, sorted by effective score |
| Gemini.OutputDerivesFromInput | services/geminiService.js:55-79 | the pushed record keeps its DE row and exactly its candidate rows |
| Gemini.OutcomesStep | services/geminiService.js:45-46 | one more record appends exactly its own outcome |
| Gemini.FailuresPrefix | services/geminiService.js:95 | the error count and the reported records depend only on the records so far |
| Gemini.Reported | services/geminiService.js:84-87 | the records that report progress, in increasing order |
| Gemini.PercentBounds | services/geminiService.js:85 | `((i + 1) / length) * 100` lies in (0, 100] and grows strictly with `i` |
| Gemini.ProgressIncreasing | services/geminiService.js:84-101 | the reported progress values strictly increase within (0, 100] |
| Gemini.EnhanceMatchesWithProgress | services/geminiService.js:34-113 | without a client the results return unchanged with no progress; otherwise the result is exactly what the loop leaves (`Gemini.LoopResult`) |
| Gemini.EnhanceLoop | services/geminiService.js:45-109 | record k of the output is record k of the input as its outcome pushes it; the loop stops at the fourth failure or at the end; one progress value per record that called the model |
| Gemini.NextRecord | services/geminiService.js:46-107 | one iteration pushes the record its outcome gives, counts a failure and reports progress unless the record was skipped |
| Gemini.LoopProgressIncreasing | services/geminiService.js:84-101 | whatever the loop body, the progress values it reports strictly increase within (0, 100] |
| Server.Round | server.js:155 | `Math.round` gives the nearest integer, halves rounded up |
| Server.RoundOfInteger | server.js:155 | rounding an integer percentage returns it |
| Server.MakeRecord | server.js:151-160 | the record keeps its inputs and the rounded percentage; its status is `completed` iff the percentage is 100, never `error` |
| Server.ErrorRecord | server.js:213-221 | the catch block's record has step `error`, percentage 0, the error message and status `error` |
| Server.Polled | server.js:112-123 | a poll emits the session's record if there is one, deletes it only when terminal, and touches no other session |
| Server.TerminalEmittedOnce | server.js:112-123 | a terminal record is emitted once; the next poll finds nothing |
| Server.EmptySheetRecordStays | server.js:169-172 | the empty-sheet record has status `processing`, so any number of polls leaves it in the store |
| Server.Repolled | server.js:125-126 | repeated polls only remove records, never change them |
| Server.ProgressStore.constructor | server.js:13 | the store starts empty |
| Server.ProgressStore.Update | server.js:151-163 | `updateProgress` replaces the session's record with the built record and leaves every other session alone |
| Server.ProgressStore.StoreError | server.js:213-222 | the catch block replaces the session's record with the error record |
| Server.ProgressStore.Poll | server.js:112-123 | a poll changes the store exactly as `Server.Polled` says, and emits only the session's own record |
| Server.GeminiPercentage | server.js:188 | the callback maps progress in (0, 100] to a percentage in (50, 90] |
| Server.GeminiPercentages | server.js:187-190 | one percentage per progress value, in order |
| Server.ScheduleIsMonotone | server.js:166-199 | with strictly increasing Gemini progress the percentages never decrease, and only the last write is 100 |
| Server.GeminiWritesProcessing | server.js:187-190 | no Gemini progress write has status `completed` |
| Server.Process | server.js:138-229 | a missing file writes nothing; empty sheets write 10 then 0; a spreadsheet service failure ends with the error record after the writes made so far (10 on a parse failure, 10 and 20 on a normalise failure, the schedule without its final 100 on an output failure); success writes the full schedule, returns the matched results for the request's weights and `minScore` (defaults `[0.4, 0.25, 0.2, 0.15]` and 0.8), and ends with the completed record and its totals |
| Server.Load | server.js:165-177 | the writes at 10 and 20, the empty-sheet answer, and the error record when parsing (after writing 10) or normalising (after writing 10 and 20) throws |
| Server.Analyze | server.js:179-202 | the writes from 40 to 100 and the matched results, or the error record after the writes from 40 to 90 when generating the output throws |
| Server.Stages | server.js:179-195 | the writes at 40, 50, the Gemini percentages and 90, leaving the `generating` record, with the matched results as `Server.Match` states them |
| Server.StageWrites | server.js:179-195 | the writes at 40, 50, one per Gemini progress value, and 90, in order; the session ends on the `generating` record and no other session changes |
| Server.Finish | server.js:196-221 | a throw from generating the output leaves the catch block's error record; otherwise the completed record with both totals |
| Server.WeightsOrDefault | services/similarityService.js:9 | a request without weights uses the default four weights, whose sum is non-zero, so the pipeline's weights always meet `Similarity.CalculateSimilarities`'s requirement |
| Server.Match | server.js:181-190 | without a client the result is exactly `calculateSimilarities` with no progress; with one it is what the Gemini loop leaves from those results (`Gemini.LoopResult`); progress strictly increases within (0, 100] |
| Server.WriteGeminiProgress | server.js:187-190 | one write per progress value, in order; the store holds the last one |
| Server.GeminiProgressIncreasing | server.js:187-190 | the progress the Gemini loop hands to the callback strictly increases within (0, 100] |

## Left out

- The prompt text (`buildEnhancementPrompt`), the Gemini SDK, `testConnection` and `delay`: the model's answer to each call is the `responses` parameter.
- `JSON.parse` is the `parse` parameter: the model does not parse JSON.
- Logging, the event-stream headers and writes, the 500 ms poll timer, Express routing, CORS, rate limiting and helmet are left out. A poll is one call to `Server.ProgressStore.Poll`.
- Session-id generation and timestamps are left out: the session id is a parameter, and records carry no timestamp.
- `services/excelService.js` is not part of this model. What `parseExcelData` and `normalizeRows` return are parameters, and a throw from any of its three calls is the `excelFailure` parameter.
- Scores are exact reals: NaN, Infinity and IEEE rounding are not modelled.
- Text.Lower: lower-casing covers ASCII `A`-`Z` only, not the rest of Unicode.
- Similarity.NormalizeWeights: requires a non-zero weight sum. The source divides by the sum and would produce NaN or Infinity.
- Similarity.CalculateSimilarities: requires exactly four weights with a non-zero sum. The source reads `normalizedWeights[0..3]` whatever the length.
- Server.Process: requires the same of the request's weights, for the same reason.
- Gemini.EnhanceMatchesWithProgress: progress is returned as the sequence of values handed to the callback, not delivered by calling it. The loop's `break` is a test at the head of the loop, which stops after the same record.
- Server.Stages: the Gemini progress writes are issued after the loop rather than interleaved with it. The write at 50 comes after the similarity computation. The sequence of writes and the final store are the same as in the source.
- Server.MakeRecord: messages are datatype constructors that keep the values they are formatted from, not formatted strings.
- Keywords.SemanticSimilarity: `calculateSemanticSimilarity` is not called by the pipeline. It is modelled on its own, together with its correction.
- Similarity.TextSimilarity: `!text1` also rejects `null`, `undefined` and other non-strings. The model takes strings only, so only the empty string is rejected. The `maxLength === 0` branch cannot be reached once both texts are non-empty.
- Keywords.ExtractKeywords: the stop-word list holds `'a'` twice; membership is unaffected.
- Similarity.TextSimilarity: strings are sequences of Unicode scalar values, while JavaScript's `length` and indexing count UTF-16 code units. The two differ on characters outside the Basic Multilingual Plane: `"a😀"` against `"a"` scores 1 − 2/3 in the source and 1 − 1/2 here.
- Levenshtein.LevenshteinDistance: counts Unicode scalar values, not UTF-16 code units, for the same reason; inserting or deleting a character outside the Basic Multilingual Plane is one edit here and two in the source.
- Similarity.FieldScoresOf: the slug score is the corrected, lexicon-only `Similarity.SlugSimilarity`, not the as-written `Similarity.SlugSimilarityAsWritten`. A pair such as `constructor-azul` against `constructor-rosa` therefore gets its text score here, where the source gives 0.9 (see Findings). The two agree whenever neither slug has a word that names an inherited `Object.prototype` member (`Similarity.AsWrittenAgreesWithoutInheritedWords`).
- Slugs.ExtractProductCategory: looks words up in the lexicon only. The source's `categories[word.toLowerCase()]` also finds the inherited `Object` members for the words `constructor` and `__proto__`, so `constructor-azul` gets a (truthy) category in the source and none here (see Findings). The as-written lookup is `Slugs.FirstPropertyAsWritten`, and the two agree on slugs without those words (`Slugs.FirstPropertyAgrees`).
- Similarity.CalculateSimilarities: scores with `Similarity.FieldScoresOf`, so the same correction applies to the ranking and to everything `Server.Match` returns.

## Findings

| source | as written | input that shows it | evidently intended | confidence | as-written member | corrected member |
|---|---|---|---|---|---|---|
| services/similarityService.js:221-273 | `categories[word.toLowerCase()]` also finds members inherited from `Object.prototype`, so the word `constructor` acts as a category | `constructor-azul` against `constructor-rosa`: as written both get the category "constructor", and the pair scores 0.9 | only the listed lexicon words are categories; the pair has no category and is scored by text | not executed | Similarity.ConstructorSlugExample | Similarity.ConstructorSlugCorrectedNotNineTenths |
| services/similarityService.js:182-185 | the intersection is a filtered list, so a repeated keyword is counted once per occurrence, while the union is a set | `"w w"` against `"w"` for a keyword `w` such as `blusa`: intersection 2, union 1, score 2 | Jaccard similarity over keyword sets, in [0, 1] | not executed | Keywords.RepeatedWordAsWritten | Keywords.RepeatedWordCorrected |
