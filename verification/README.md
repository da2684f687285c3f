# Resume screener: a verified model of the screening pipeline

The resume screener is a small Streamlit app. It reads resumes and cleans their
text. It then counts skill keywords in four categories (python, leadership, web,
data). Each candidate gets a weighted score from those counts. The app shows the
scores in an analysis table and, for a batch of resumes read from a CSV file,
gives each one a Hire / Review / Reject recommendation.

This project models the pure part of that pipeline in Dafny and proves
properties of it:

- `seqs.dfy` (module `Seqs`): generic helpers. These are a list filter with an
  exact description of which positions it keeps, and set-size bounds.
- `text.dfy` (module `Text`): `clean_resume`. It lower-cases the text, turns
  punctuation into spaces, collapses whitespace, splits into words, drops short
  words and stop words, and joins the rest with single spaces.
- `skills.dfy` (module `Skills`): `extract_skills`. It holds the keyword table,
  does substring search on the cleaned text, and counts the matching keywords
  per category.
- `scoring.dfy` (module `Scoring`): `score_candidate`. It computes the
  weight-normalised, ten-scaled sum of the counts, rounded to two decimals.
  Division by a zero total weight is the error `ZeroTotalWeight`.
- `screening.dfy` (module `Screening`): the decision logic of the app itself.
  This covers the slider weights, the skip of blank uploads, the analysis table
  and its skill tags, and the batch loop with its recommendation thresholds.

How the model represents the source:

- Character classes are abstract. Python's `\w`, `\s` and `str.lower` are a
  `CharClasses` value of three functions, and the few laws the proofs need
  (e.g. "a space is whitespace", "word and space characters are disjoint") are
  stated in `Text.Valid`.
- The stop-word list is a parameter.
- Python dicts of weights are sequences of `(category, weight)` pairs in
  iteration order.
- Skill counts are `map<string, nat>`.
- Floats are real numbers, and `round(x, 2)` is exact rounding to hundredths
  with ties to even.

## Model

| member | source | states |
|---|---|---|
| `Text.CollapseWhitespace` | preprocess.py:15 | the result has no two adjacent whitespace characters, and every character is either a single space or a non-space character of the input |
| `Text.SplitIgnoresCollapse` | preprocess.py:15-16 | collapsing whitespace runs before tokenising does not change the tokens |
| `Text.TokenizeJoin` | preprocess.py:16-18 | joining word tokens with single spaces and tokenising again gives back the same tokens |
| `Text.NormalizedShape` | preprocess.py:14-15 | after lower-casing, punctuation removal and collapsing, only word characters and single spaces remain |
| `Text.CleanTokensAreKeptWords` | preprocess.py:14-17 | every token that survives is a non-empty run of word characters, longer than two characters and not a stop word |
| `Text.CleanTokensSubsequence` | preprocess.py:16-17 | the kept tokens are exactly the tokens of the normalised text that pass the length and stop-word rule, in their original order |
| `Text.CleanResumeShape` | preprocess.py:12-18 | the cleaned text consists of word tokens separated by single spaces, with no leading or trailing space |
| `Text.CleanResumeTokens` | preprocess.py:17-18 | tokenising the cleaned text gives back exactly the kept tokens, each longer than two characters and not a stop word |
| `Text.CleanWithoutWordChars` | preprocess.py:14-18 | a text none of whose characters lower-cases to a word character cleans to the empty string |
| `Text.CleanBlank` | preprocess.py:14-18 | a whitespace-only text cleans to the empty string |
| `Text.CleanIdempotent` | preprocess.py:12-18 | cleaning an already cleaned text changes nothing |
| `Skills.ContainsIffOccurs` | preprocess.py:32 | `kw in cleaned` holds exactly when the keyword occurs at some position of the cleaned text |
| `Skills.CountMatches` | preprocess.py:32 | the count is at most the number of keywords, and it is zero exactly when no keyword occurs |
| `Skills.CountMatchesAppend` | preprocess.py:32 | the count over two keyword lists together is the sum of their counts |
| `Skills.CountMatchesOrderFree` | preprocess.py:32 | the count does not depend on the order of the keywords |
| `Skills.CountPositiveIffOccurs` | preprocess.py:32-33 | a category has a positive count exactly when one of its keywords occurs somewhere in the text |
| `Skills.BuildSkills` | preprocess.py:30-35 | only table categories appear in the result, and each with a count of at least one |
| `Skills.BuildSkillsExact` | preprocess.py:31-34 | a category is in the result exactly when its count is positive, and then it maps to that count |
| `Skills.BuildSkillsKeywordOrderFree` | preprocess.py:22-34 | reordering the keywords within categories leaves the result unchanged |
| `Skills.BuildSkillsOfEmpty` | preprocess.py:31-35 | the empty text yields no skills |
| `Skills.SkillTableShape` | preprocess.py:22-27 | the table has the four distinct categories python, leadership, web and data, in that order, with 5, 5, 6 and 5 keywords |
| `Skills.ExtractSkills` | preprocess.py:20-35 | only the four categories appear, each count is at least 1, and the counts are capped at 5, 5, 6 and 5 |
| `Skills.ExtractSkillsExact` | preprocess.py:29-34 | a category is reported exactly when some of its keywords occur in the cleaned resume, and its value is the number of such keywords |
| `Skills.ExtractSkillsKeywordOrderFree` | preprocess.py:22-35 | any keyword table that differs only in keyword order gives the same skills |
| `Skills.ExtractSkillsWithoutWords` | preprocess.py:20-35 | a resume none of whose characters lower-cases to a word character (the empty resume among them) has no skills |
| `Skills.MissingCharNotContained` | preprocess.py:32 | a keyword with a character absent from the text does not match |
| `Skills.LedMatchesInsideSkilled` | preprocess.py:24 | the substring test counts "led" inside the word "skilled", so one leadership keyword matches it |
| `Scoring.MaxCount` | scoring.py:9 | the maximum bounds every weighted category's count |
| `Scoring.MaxCountAttained` | scoring.py:9 | the maximum is the count of some weighted category, or 0 when nothing is weighted, so it is the least such bound |
| `Scoring.EffectiveWeights` | scoring.py:3-4 | the fallback weights are all positive and total 1, so a call without weights never reaches the zero division; a given dictionary, even an empty one, is not replaced |
| `Scoring.RawScore` | scoring.py:6-13 | the score fails exactly when the weights total zero |
| `Scoring.Round2` | scoring.py:13 | the result is a whole number of hundredths within half a hundredth of the input, and an exact tie goes to the even hundredth |
| `Scoring.Round2Monotone` | scoring.py:13 | rounding preserves order |
| `Scoring.Round2OfCents` | scoring.py:13 | rounding leaves whole hundredths unchanged |
| `Scoring.ScoreCandidate` | scoring.py:1-13 | the score fails exactly when the unrounded score fails, and it is whole hundredths within 0.005 of the unrounded score |
| `Scoring.RawScoreAsDot` | scoring.py:8-13 | with given weights of non-zero total, the unrounded score is ten times the dot product of the count vector and the weights, divided by the total weight |
| `Scoring.JobSkillsIgnored` | scoring.py:1-13 | the job-skills argument never affects the score |
| `Scoring.PointsOnlyReadWeighted` | scoring.py:8-10 | the points depend only on the counts of the weighted categories |
| `Scoring.UnweightedCategoriesIgnored` | scoring.py:8-13 | skills in categories without a weight do not change the score |
| `Scoring.PointsOfUniformCounts` | scoring.py:8-11 | if every weighted category has count c, the points are 10·c times the total weight |
| `Scoring.UniformCountsScore` | scoring.py:6-13 | if every weighted category has count c, the unrounded score is 10·c, whatever the weights |
| `Scoring.EmptySkillsScoreZero` | scoring.py:9-13 | a candidate with no skills scores 0 under any weights with a non-zero total |
| `Scoring.ZeroTotalWeightFails` | scoring.py:3-13 | weights that total zero make the score fail, and an empty dictionary is not replaced by the defaults but fails too |
| `Scoring.DefaultWeightsScore` | scoring.py:3-13 | without weights the defaults are used; they total 1, and the unrounded score is 3·python + 2.5·leadership + 2.5·web + 2·data |
| `Scoring.PointsBounds` | scoring.py:8-11 | with non-negative weights the points lie between 0 and ten times the largest count times the total weight |
| `Scoring.RawScoreBounds` | scoring.py:8-13 | with non-negative weights of positive total the unrounded score lies between 0 and ten times the largest weighted count |
| `Scoring.ScoreBounds` | scoring.py:1-13 | the same bounds hold for the rounded score |
| `Scoring.ScoreCanExceedTen` | scoring.py:10 | a count above 1 gives a score above 10, despite the "0-10" comment: python 3 with weight 1 scores 30.0 |
| `Scoring.CountsOf` | scoring.py:9 | the count vector has one entry per weight, holding that category's count |
| `Scoring.PointsAsDot` | scoring.py:8-10 | the points are ten times the dot product of counts and weights |
| `Scoring.DotBounds` | scoring.py:10-11 | with counts in [0, m] and non-negative weights, the dot product lies between 0 and m times the total weight |
| `Scoring.ScaleWeights` | scoring.py:8 | scaling keeps the categories and multiplies every weight by the factor |
| `Scoring.ScaleWeightsTotal` | scoring.py:11 | scaling the weights scales the total weight by the same factor |
| `Scoring.DotScale` | scoring.py:10 | scaling the weights scales the dot product by the same factor |
| `Scoring.ScaleWeightsPoints` | scoring.py:10 | scaling the weights scales the points by the same factor |
| `Scoring.ScaledRatio` | scoring.py:10-13 | scaling by a positive factor keeps a zero total zero and leaves points/total unchanged |
| `Scoring.ScaleInvariant` | scoring.py:6-13 | multiplying every weight by the same positive factor does not change the score |
| `Screening.SliderWeights` | app.py:34-44 | the job weights are the four categories in order; each category's weight is its own slider's position divided by 10, so one of 0.0, 0.1, …, 0.5 |
| `Screening.SliderTotal` | app.py:34-44 | the total weight is a tenth of the sum of the slider positions |
| `Screening.SliderTotalZeroIff` | app.py:34-44 | the total weight is zero exactly when all four sliders are at 0 |
| `Screening.AllSlidersZeroFails` | app.py:39-44 | with every slider at 0 every score computation fails |
| `Screening.SomeSliderScores` | app.py:34-44 | with some slider above 0 every score is computed and lies between 0 and ten times the largest count |
| `Screening.IngestUploads` | app.py:90-101 | no more resumes than uploads are stored, and none of them is blank |
| `Screening.IngestExactly` | app.py:90-101 | the stored resumes are the analyses of exactly the non-blank uploads, in upload order |
| `Screening.IngestNothingIffAllBlank` | app.py:90-115 | nothing is stored exactly when every upload is blank |
| `Screening.BlankCleansToEmpty` | app.py:90-92 | a skipped upload would have cleaned to the empty text |
| `Screening.AnalysisTable` | app.py:125-143 | the table fails exactly when there are resumes and the weights total zero; otherwise it has one row per resume with its rounded score and its category counts |
| `Screening.ColumnsDefaultToZero` | app.py:138-143 | a category column is 0 exactly when the category was not found, and shows its count otherwise |
| `Screening.NatToString` | app.py:130-131 | a count's numeral is a non-empty run of decimal digits without leading zeros |
| `Screening.ParseNatToString` | app.py:130-131 | reading a count's numeral back gives the count |
| `Screening.TagCountInjective` | app.py:130-131 | two tags of one category are equal exactly when their counts are |
| `Screening.TagInjective` | app.py:130-131 | tags of the four categories are equal exactly when category and count are |
| `Screening.TagSetMembers` | app.py:128-131 | a tag is in the tag set exactly when some resume has that category with that count |
| `Screening.TagsOfNoLarger` | app.py:130-131 | a resume has no more distinct tags than skill entries |
| `Screening.UniqueTagsAtMostPhrases` | app.py:154 | the "Unique Skill Tags" metric is at most the number of phrases |
| `Screening.Recommend` | app.py:210-214 | Hire exactly at score ≥ 7, Review exactly at 5 ≤ score < 7, Reject exactly below 5 |
| `Screening.RecommendMonotone` | app.py:210-214 | a higher score never gets a worse recommendation |
| `Screening.RoundedThresholds` | app.py:202-214 | on the unrounded score, Hire means at least 6.995 and Reject means below 4.995 |
| `Screening.BatchProcess` | app.py:200-216 | the batch fails exactly when there are rows and the weights total zero; otherwise each row keeps its position as id, the skills extracted from its text, their rounded score and the recommendation for that score |

## Left out

- The Streamlit user interface: widgets, tabs, session state, messages,
  previews, charts, the best and average score metrics, and the CSV download.
  These are presentation only.
- File handling: reading uploads, UTF-8 / Latin-1 decoding, PDF text
  extraction and CSV parsing. An upload is modelled as its file name and
  decoded text, and a batch as the sequence of `resume_text` cells.
- The check that the CSV has a `resume_text` column. It is an I/O error path
  outside the model.
- Missing (NaN) CSV cells. They are not strings, and the model's texts always are.
- The pandas row index. `candidate_id` is modelled as the row position, which is
  what the default index of a freshly read CSV gives.
- `clustering.py`. It is imported by the app but none of its functions are
  used in the pipeline.
- NLTK itself. The model does not include downloading corpora, the concrete
  English stop-word list (a parameter here), or the Treebank rules of
  `word_tokenize`. Tokenising is a split on whitespace. After punctuation has
  become spaces this matches NLTK on ordinary words, but not on the few
  contractions the Treebank rules split further (such as "cannot").
- Unicode semantics of `\w`, `\s` and `str.lower`. They are abstract functions
  constrained only by the laws in `Text.Valid`. A per-character function cannot
  express two things `str.lower` does. It can change a string's length for a few
  characters (such as 'İ'). It is also context-dependent for the capital sigma,
  which becomes 'ς' at the end of a word and 'σ' elsewhere.
- Scoring.Round2: models `round(x, 2)` on exact reals. Binary floats store 0.1
  and most decimal weights inexactly, so a float score near a rounding tie may
  round differently. The 6.995 and 4.995 bounds of
  `Screening.RoundedThresholds` are exact-arithmetic bounds for the same reason.
- Scoring.ScoreCandidate: float overflow and NaN are not modelled, because
  counts and weights are reals.
- Arithmetic and sequence step lemmas (`Scoring.DivScale`,
  `Seqs.AtPositionsStep`, …) are proof helpers and have no rows.
