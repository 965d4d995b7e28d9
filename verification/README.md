# Resume ATS analyzer — a Dafny model of the skill matcher

This project models the core of a resume-versus-job-description analyzer:

- the skill taxonomy's alias map and exact-match patterns;
- text cleaning and token normalisation;
- skill extraction, with an exact word-boundary pass and a fuzzy pass over 1- to 3-word windows;
- the job-description variant, which also scans "Requirements"-style sections;
- the missing-skill comparison;
- the category-weighted coverage score, with its matched / missing / extra breakdown;
- the analysis entry point's guards and bookkeeping: word counts, chunking for the similarity score, and HTML-escaped previews;
- the score gauge: clamping, colour band and arc offset.

The model is built from these modules, one file each:

| module | file | what it holds |
|---|---|---|
| `Wrappers` | wrappers.dfy | `Option` and its `GetOr` |
| `Text` | text.dfy | character classes; ASCII lower-casing; maximal runs, `split()` and `strip()`; one-character `replace`; filtering; substrings |
| `Order` | order.dfy | lexicographic order and `sorted(set)` |
| `Normalize` | normalize.dfy | `_clean_text`, `_normalize_token`, `_ngrams` |
| `Taxonomy` | taxonomy.dfy | taxonomy entries, `ALIAS2CANON`, `EXACT_PATTERNS`, alias normalisation |
| `Extraction` | extraction.dfy | `extract_skills`, `_fuzzy_hit`, `extract_jd_skills` and its section regex |
| `Coverage` | coverage.dfy | `_category_of`, the weights, `compare_skills`, `coverage_score`, `analyze_skills` |
| `Chunking` | chunking.dfy | `chunk_text` with Python slice semantics |
| `Escape` | escape.dfy | `_esc` and a decoder that inverts it |
| `Badge` | badge.dfy | `score_badge` |
| `App` | app.dfy | the guards and bookkeeping of `analyze` |

Modelling choices:

- **Taxonomy.** The taxonomy is a parameter: a sequence of entries in dictionary order. The order matters because a later entry overwrites an earlier one's alias key.
- **Fuzzy ratio.** `difflib.SequenceMatcher.ratio` is a parameter `ratio: (string, string) -> real`.
- **Similarity.** The embedding similarity of the two chunk lists is a parameter of `Analyze`.
- **Character classes.** `\w` is ASCII letters, digits and `_`. `\s` and `isspace()` are Python's whitespace set. `lower()` is ASCII lower-casing.
- **Weights.** Category weights are scaled by ten to natural numbers. The default weight 1.0 becomes 10.
- **Score.** The score is an exact real; it is not rounded.

One might expect the text "I use C++ and C# daily" to yield C++ but not C. The code yields C as well, for two reasons:

- C's exact pattern `(?<![#\w])C(?![-\w])` matches before `+` and before `#`. `Extraction.CMatchesBeforePlusAndHash` shows both match positions.
- The fuzzy pass first checks whether the target occurs inside the window. A one-letter target therefore hits every window that contains that letter. `Extraction.ShortTargetHitsInsideWord` shows this for "c" inside "docker".

A second point: `analyze` builds its matched list from the raw skill lists, but its missing list from alias-normalised ones. For a taxonomy where every canonical name normalises to itself, `App.MatchedMissingPartition` proves that the two lists split the job skills. The source taxonomy overwrites one alias key: "amazon cloudwatch" belongs to CloudWatch first, then to Amazon CloudWatch. `Taxonomy.AmazonCloudWatchOverwritten` shows this on those two entries.

## Model

| member | source | states |
|---|---|---|
| Text.Lower | utils/skills.py:178 | lower-casing keeps the length, leaves no letter in A–Z, keeps every character outside A–Z, and turns the j-th upper-case letter of the alphabet into the j-th lower-case one |
| Text.LowerIdempotent | utils/skills.py:178 | lower-casing twice is lower-casing once |
| Text.Runs | utils/skills.py:206 | every run `re.findall` returns is non-empty and made only of class characters, and the runs, concatenated, are exactly the class characters of the text in order |
| Text.RunsAppend | utils/skills.py:206 | runs are maximal: no run crosses a character outside the class, so text split just before one has the runs of its two parts |
| Text.RunsDropOutside | utils/skills.py:206 | characters outside the class contribute no run |
| Text.Words | app.py:19 | the words of `split()` are non-empty, contain no whitespace, and concatenated are the text's non-space characters in order |
| Text.WordsHaveNoSpace | app.py:19 | the words of `split()` contain no whitespace |
| Text.Strip | utils/skills.py:175 | `strip()` removes only whitespace, and what it keeps starts and ends with a non-space character |
| Text.ReplaceChar | app.py:48 | after replacing `c`, every character comes from the replacement or is an original character other than `c`; without `c` the text is unchanged; its partners `Escape.ReplaceOne` and `Escape.ReplaceCharAppend` pin it to `str.replace` character by character |
| Escape.ReplaceOne | app.py:48 | in a one-character text, `str.replace` of one character gives the replacement when the character matches and the character itself otherwise |
| Escape.ReplaceCharAppend | app.py:48 | replacing a character distributes over concatenation, so it acts on each character independently |
| Normalize.CollapseRunsKeepsRuns | utils/skills.py:173-174 | `re.sub(class+, " ")` keeps the maximal runs of every class that excludes the collapsed class and the space: the words between the collapsed runs survive unchanged and in order |
| Normalize.CollapseRuns | utils/skills.py:173-174 | `re.sub(class+, " ")` leaves only spaces and characters of the input outside the class, never two class characters in a row, and keeps a leading character outside the class; its partners `CollapseRunsOutside`, `CollapseRunsOfRun` and `CollapseRunsAppend` fix the result exactly, and `CollapseRunsKeepsRuns` shows the words between the collapsed runs survive in order |
| Normalize.CollapseRunsOutside | utils/skills.py:173-174 | a text without class characters is left unchanged |
| Normalize.CollapseRunsOfRun | utils/skills.py:173-174 | a non-empty run of class characters becomes exactly one space |
| Normalize.CollapseRunsAppend | utils/skills.py:173-174 | collapsing works piece by piece on any cut that does not split a run of the class; with the two lemmas above, every maximal run becomes one space and every other character stays in place |
| Normalize.BulletBecomesOneSpace | utils/skills.py:173 | a bullet between two letters becomes one space, not two |
| Normalize.CleanText | utils/skills.py:171-175 | cleaned text has no bullets, no no-break space, only plain single spaces and no space at either end; it equals the text's maximal runs of non-space, non-bullet characters joined by single spaces |
| Normalize.CleanJoin | utils/skills.py:171-175 | a clean text is its words joined by single spaces |
| Normalize.CleanTextFixesClean | utils/skills.py:171-175 | cleaning text that is already clean changes nothing |
| Normalize.CleanTextIdempotent | utils/skills.py:171-175 | cleaning twice equals cleaning once |
| Normalize.NormalizeToken | utils/skills.py:177-181 | a normalised token holds only `[\w\s.+#]` characters and no `/` or `-` |
| Normalize.NormalizeTokenOfToken | utils/skills.py:177-181 | on a token from `[A-Za-z0-9+.#]+` the normaliser only lower-cases |
| Normalize.Tokens | utils/skills.py:206 | every token of `re.findall("[A-Za-z0-9+.#]+")` is non-empty and made of token characters, and the tokens, concatenated, are the text's token characters in order |
| Normalize.NGrams | utils/skills.py:183-184 | there are `len - n + 1` n-grams (none when the list is too short), and gram i joins words i to i+n-1 with spaces |
| Order.SortedOf | utils/skills.py:238 | `sorted(set)` is strictly increasing, holds exactly the set's elements, and has the set's size |
| Order.SortedUnique | utils/skills.py:238 | two strictly sorted lists with the same elements are equal |
| Order.SortedOfSorted | utils/skills.py:331-332 | sorting an already sorted list returns it unchanged |
| Order.LessTotal | utils/skills.py:238 | string order is total |
| Order.LessTransitive | utils/skills.py:238 | string order is transitive |
| Taxonomy.AliasMap | utils/skills.py:151-157 | every alias-map value is a canonical name |
| Taxonomy.AliasMapKeys | utils/skills.py:153-157 | a key is in the alias map exactly when some entry has it as its lower-cased name or alias |
| Taxonomy.AliasMapLastWriter | utils/skills.py:153-157 | a key maps to the canonical name of the last entry that writes it |
| Taxonomy.AmazonCloudWatchOverwritten | utils/skills.py:67-114 | CloudWatch's alias "amazon cloudwatch" ends up mapped to Amazon CloudWatch |
| Taxonomy.KeyCanon | utils/skills.py:200 | `split("__", 1)[0]` is a prefix of the key |
| Taxonomy.KeyCanonOfComposite | utils/skills.py:164-167 | the canonical part of an alias key `canon__alias` is the canonical name |
| Taxonomy.KeyCanonOfName | utils/skills.py:160-162 | a canonical-name key is its own canonical part |
| Taxonomy.PatternKeysNameCanonicals | utils/skills.py:159-168 | every exact-pattern key names a canonical skill before its `__` |
| Taxonomy.Patterns | utils/skills.py:160-168 | every alias-map key has an exact pattern whose literal is the key or lower-cases to it |
| Taxonomy.NormSkill | utils/skills.py:243 | normalising gives a canonical name or the input itself; in a stable taxonomy a canonical name normalises to itself |
| Taxonomy.NormSkillResolves | utils/skills.py:243 | a name or alias, in any letter case, normalises to the canonical name of the last entry that has it |
| Taxonomy.NormSkillUnknown | utils/skills.py:243 | a string no entry has as a name or alias normalises to itself |
| Extraction.BoundaryMatchIgnoresCase | utils/skills.py:161 | the case-insensitive boundary match does not depend on the literal's case |
| Extraction.CMatchesBeforePlusAndHash | utils/skills.py:161 | the pattern for C matches the C of "C++" and the C of "C#" |
| Extraction.Threshold | utils/skills.py:221-226 | the fuzzy threshold lies between 0.86 and 0.92 |
| Extraction.ThresholdNonIncreasing | utils/skills.py:221-226 | a longer target never needs a higher ratio |
| Extraction.FuzzyHit | utils/skills.py:211-226 | an empty window or target never hits; a target inside the window always hits; otherwise a hit means the ratio reaches the threshold for the target's length |
| Extraction.FuzzyHitMonotoneInRatio | utils/skills.py:211-226 | a higher ratio keeps a hit a hit |
| Extraction.ShortTargetHitsInsideWord | utils/skills.py:218-219 | the target "c" hits the window "docker" whatever the ratio |
| Extraction.NormalizedTokens | utils/skills.py:206 | there is one normalised token per token, and normalised token i is token i lower-cased |
| Extraction.ExtractSkills | utils/skills.py:187-238 | empty text gives no skills; the result is strictly sorted |
| Extraction.ExtractSkillsIffHit | utils/skills.py:195-236 | a skill is extracted exactly when its canonical name or an alias-map key mapping to it matches the cleaned text at word boundaries, or some token window fuzzily hits a name or alias of its entry |
| Extraction.ExtractSkillsCanonical | utils/skills.py:187-238 | every extracted skill is a canonical name |
| Extraction.ExactAliasHit | utils/skills.py:199-202 | when an alias-map key matches the cleaned text at a word boundary, its canonical name is extracted |
| Extraction.FuzzyEntryHit | utils/skills.py:228-236 | when a window fuzzily hits one of an entry's names, that entry's canonical name is extracted |
| Extraction.ExtractSkillsOfCleaned | utils/skills.py:195 | extracting from already-cleaned text gives the same skills |
| Extraction.SectionsFrom | utils/skills.py:259-262 | every section found from a position on is a non-empty piece of the text after that position |
| Extraction.Sections | utils/skills.py:259-262 | every section is a non-empty piece of the text after its first character |
| Extraction.FirstStop | utils/skills.py:260 | the lazy section body stops at the first end of text or next `\n[A-Z][^\n]{0,40}:` header |
| Extraction.MatchHeaderAt | utils/skills.py:259-262 | a section match ends after its start and its body is a suffix of the matched span |
| Extraction.MatchAt | utils/skills.py:259-262 | trying the headers in order gives a match whose body is a suffix of the span |
| Extraction.NoNewlineStopsAtEnd | utils/skills.py:260 | without newlines a section runs to the end of the text |
| Extraction.SectionsWithoutNewlines | utils/skills.py:259-262 | without newlines there is at most one section, and it is a non-empty suffix of the text |
| Extraction.ExactHits | utils/skills.py:199-202 | has no contract of its own; its partner `ExtractSkillsIffHit` states that the exact pass finds a skill exactly when its canonical name or one of its aliases occurs in the cleaned text at word boundaries |
| Extraction.Windows | utils/skills.py:206-209 | has no contract of its own: the candidate windows are the normalised tokens with their 2-grams and 3-grams, whose shape `Normalize.NGrams` states; `FuzzyEntryHit` and `ExtractSkillsIffHit` use them |
| Extraction.FuzzyHits | utils/skills.py:228-236 | has no contract of its own; its partner `ExtractSkillsIffHit` states that a skill the exact pass missed is added exactly when some window is a fuzzy hit for its name or one of its aliases |
| Extraction.SectionSkills | utils/skills.py:264-265 | a skill is in the union over the sections exactly when plain extraction finds it in one of them |
| Extraction.MatchAtEndsAtEnd | utils/skills.py:259-262 | without newlines every section match ends at the end of the text |
| Extraction.JdSectionsRunToEnd | utils/skills.py:255-262 | cleaned text has no newlines, so it yields at most one section, a non-empty suffix |
| Extraction.ExtractJdSkills | utils/skills.py:248-266 | empty text gives no skills; the result is sorted and contains every skill of the cleaned text; its partner `ExtractJdSkillsIff` gives membership in both directions |
| Extraction.ExtractJdSkillsIff | utils/skills.py:248-266 | a skill is a job skill exactly when extraction finds it in the cleaned text or in one of its sections |
| Extraction.JdSkillsFromSuffixes | utils/skills.py:248-266 | every job skill is found in the cleaned text or in a proper suffix of it, since every section runs to the end of the text |
| Extraction.JdSkillsContainSkills | utils/skills.py:248-266 | the job variant finds every skill plain extraction finds |
| Extraction.SectionSkillsCanonical | utils/skills.py:264-265 | skills from the sections are canonical names |
| Extraction.ExtractJdSkillsCanonical | utils/skills.py:248-266 | every job skill is a canonical name |
| Coverage.WeightOf | utils/skills.py:139-149 | every category weight is positive; a listed category has its table weight, and a category without a weight counts 1.0 |
| Coverage.FirstCategory | utils/skills.py:273-288 | a skill no category lists falls in "Other"; a listed skill falls in the first category that lists it |
| Coverage.CategoryOfListed | utils/skills.py:273-288 | every category a skill can fall in is tallied by the score |
| Coverage.WeightedCountMonotone | utils/skills.py:311-317 | more skills never give a smaller weighted tally |
| Coverage.WeightedCountStrict | utils/skills.py:311-317 | one more skill gives a strictly larger weighted tally |
| Coverage.WeightedCount | utils/skills.py:311-316 | has no contract of its own; `TotalBounds`, `WeightedCountMonotone`, `WeightedCountStrict` and `WeightedCountIsSkillWeights` state what it computes |
| Coverage.WeightedCountIsSkillWeights | utils/skills.py:311-316 | with distinct category names, the tally of distinct skills over every category is the sum of each skill's own category weight: each skill counts once, in the first category that lists it |
| Coverage.CategoryTableDistinct | utils/skills.py:274-288 | the nine category names of the table and "Other" are pairwise distinct |
| Coverage.Percent | utils/skills.py:317 | the percentage lies in [0, 100]; it is 0 with no weight and 100 when all weight is obtained |
| Coverage.CompareSkills | utils/skills.py:241-245 | the result is sorted and holds exactly the normalised job skills missing from the normalised resume skills |
| Coverage.CoverageScore | utils/skills.py:268-321 | has no contract of its own: it is `CoverageWith` on the nine-category table, and inherits that contract |
| Coverage.CoverageWith | utils/skills.py:290-321 | matched and missing are sorted, disjoint, and together the normalised job skills; matched is within the resume's; extra is resume minus job; the score is in [0, 100], 0 with no job skills and 100 when all are covered; its partner `CoverageIsWeightedShare` gives the score's value |
| Coverage.CoverageIsWeightedShare | utils/skills.py:311-317 | for a table with distinct category names, the score is 100 times the summed category weights of the matched skills over the summed category weights of the matched and missing skills |
| Coverage.CoverageScoreIsWeightedShare | utils/skills.py:268-321 | the score of `coverage_score` itself is that weighted share, over its own category table |
| Coverage.OneOfTwoWeighted | utils/skills.py:311-317 | the weights matter: with Python (Languages, 1.0) matched and Figma (Frontend, 0.8) missing, the score is 100 * 1.0 / 1.8 and not the unweighted 50 |
| Coverage.TotalBounds | utils/skills.py:311-317 | the obtained weight never exceeds the total, which is 0 exactly when there are no job skills |
| Coverage.CoverageMonotone | utils/skills.py:290-321 | a resume with more normalised skills never scores lower |
| Coverage.AddingResumeSkillNeverLowers | utils/skills.py:290-321 | adding a skill to the resume never lowers the score |
| Coverage.AddingMissingSkillRaises | utils/skills.py:290-321 | adding a missing job skill strictly raises the score |
| Coverage.FullScoreIffCovered | utils/skills.py:290-321 | the score is 100 exactly when there are job skills and the resume covers all of them |
| Coverage.CompareSkillsIsMissing | utils/skills.py:241-245 | `compare_skills` returns exactly the coverage report's missing list |
| Coverage.NormSetOfCanonicals | utils/skills.py:291-292 | in a stable taxonomy, normalising canonical names changes nothing |
| Coverage.AnalyzeSkills | utils/skills.py:323-337 | the skill lists are exactly the extracted resume and job skills, both sorted; matched, missing and extra are sorted; matched and missing split the normalised job skills; matched is within the resume's; extra is resume minus job; the score is in [0, 100] and is the weighted share of `coverage_score` |
| Coverage.AnalyzeSkillsOfStable | utils/skills.py:323-337 | in a well-formed, stable taxonomy the lists are the extracted lists, and matched, missing and extra are their intersection and differences |
| Coverage.CoverageOfCanonicals | utils/skills.py:290-321 | on canonical names of a stable taxonomy, matched, missing and extra are the plain set operations |
| Chunking.SliceBound | app.py:25 | a slice bound is clamped to the list, and a bound already inside is kept |
| Chunking.Step | app.py:23 | the step is at least 1, and equals size minus overlap when that is positive |
| Chunking.ChunkText | app.py:18-27 | no words gives no chunks; (count - 1) windows start before the last word and count windows reach past it; chunk k joins the words of `words[k*step : k*step + size]` |
| Chunking.ChunkingUnique | app.py:18-27 | the chunking a text must have is unique: the bounds fix the count and the windows fix each chunk |
| Chunking.WindowsCoverWords | app.py:18-27 | when the step is at most the size, chunk j / step exists and holds word j at its offset from the chunk's first word |
| Chunking.WindowAtMostSize | app.py:25 | no chunk has more than `size` words |
| Chunking.ChunksRejoinWords | app.py:18-27 | with no overlap, the chunks joined by spaces give back the text's words joined by spaces |
| Chunking.JoinSpacesAppend | app.py:25 | joining two non-empty lists is joining each, with one space between |
| Escape.Esc | app.py:47-48 | escaped text has no `<` or `>`; text without `&`, `<`, `>` is unchanged |
| Escape.EscAmpersandsBeginEntities | app.py:47-48 | in escaped text every `&` begins `&amp;`, `&lt;` or `&gt;` |
| Escape.EscCons | app.py:47-48 | the three whole-text passes act character by character |
| Escape.UnescapeEsc | app.py:47-48 | decoding the three entities inverts escaping |
| Escape.EscInjective | app.py:47-48 | different texts escape differently |
| Escape.EscLonger | app.py:47-48 | escaping never shortens a text |
| Badge.Clamp | utils/ui_enhancements.py:11 | the clamped score lies in [0, 100], is unchanged inside it, and goes to the nearest end outside |
| Badge.BandOf | utils/ui_enhancements.py:13-21 | below 50 needs work; 50 up to 75 is okay; 75 and above is a strong fit |
| Badge.ScoreBadge | utils/ui_enhancements.py:7-26 | the shown score is clamped and banded; the dash offset lies in [0, circumference], 0 exactly at 100 and full exactly at 0 |
| Badge.DashOffset | utils/ui_enhancements.py:26 | the offset lies between 0 and the circumference, reaching each end only at 100 and 0 |
| Badge.DashOffsetAntitone | utils/ui_enhancements.py:26 | a higher score never leaves more of the arc unfilled |
| Badge.FilledShare | utils/ui_enhancements.py:23-26 | the filled share of the circle equals the shown score over 100 |
| Badge.BadgeMonotone | utils/ui_enhancements.py:11-26 | a higher score never gets a worse band or a larger offset |
| Badge.BadgeOfClamped | utils/ui_enhancements.py:11 | the gauge of a clamped score equals the gauge of the score |
| Badge.BadgeExtremes | utils/ui_enhancements.py:11-26 | scores above 100 show as a full strong-fit gauge; scores below 0 show as an empty needs-work gauge |
| App.Prefix | app.py:108 | `s[:n]` has length min(n, len) and is a prefix of s |
| App.Summarise | app.py:65-69 | both texts go through extraction; matched is sorted and is the intersection of the raw lists; missing is the normalised comparison; total is the number of distinct job skills, at least the number matched |
| App.Preview | app.py:105-121 | a shown preview decodes back to the resume's first n characters and contains no `<` or `>`; a hidden preview is empty |
| App.Analyze | app.py:51-78 | no file is refused as "no resume"; otherwise a blank job text is refused; otherwise a blank extracted resume is refused; each refusal happens exactly then; otherwise the result holds the skill summary, the two word counts, the previews, and the badge of the chunked texts' similarity as a percentage |
| App.SimilarityGauge | app.py:72-74 | the gauge is the score badge of the similarity of the resume's and the job's chunkings (size 900, overlap 100) times 100, clamped and banded |
| App.DistinctCard | app.py:69 | a sorted list without repeats has as many distinct skills as entries |
| App.MatchedMissingPartition | app.py:65-69 | in a well-formed, stable taxonomy, matched and missing are disjoint and together make up the job skills |
| App.PartitionOfCanonicals | app.py:67-68 | for any two lists of canonical names of a stable taxonomy, matched and missing split the job list |
| App.MissingIsDifference | utils/skills.py:241-245 | on canonical names of a stable taxonomy, the missing list is the job list minus the resume list |

## Left out

- PDF text extraction (`extract_text_from_pdf`): this is I/O. `Analyze` receives the extracted text in place of the file.
- Embeddings and `section_similarity`: this is model inference and floating point. The similarity of the two chunk lists is a parameter of `Analyze`.
- `difflib.SequenceMatcher.ratio`: this is a foreign algorithm. It is the parameter `ratio`.
- The full taxonomy literal: a constant that large exhausts the verifier. The taxonomy is a parameter and only the two CloudWatch entries are written out. The category table is kept whole: the nine categories with their 108 skill names are the constant `Coverage.CategoryTable`, and their weights the constant `Coverage.CategoryWeights`.
- The HTML wrapping of results, `pill`, `base_css` and the Gradio UI: presentation only. `Rejection.Message` keeps the refusal texts without their markup.
- Rounding with `round(…, 2)` of the coverage score and of the similarity percentage, and the formatted `{score:.0f}` and `{…:.1f}` values: floating-point formatting. `Coverage.Percent` is exact.
- Badge.ScoreBadge: does not model `float()` conversion or NaN inputs, because the model's scores are reals. The circumference `2·π·56` is a parameter, positive as in the source; `Analyze` passes 351.86.
- Unicode case mapping and Unicode `\w`: `lower()` and `\w` are modelled on ASCII only.
- Regular expressions in general: only the patterns the core uses are modelled, as predicates or functions.
- Coverage.CoverageWith: the score is stated for the exact ratio, before rounding to two decimals.
- Chunking.ChunkText: the chunk count is stated by two bounds, which fix it as the word count over the step, rounded up; there is no closed formula.
