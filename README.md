# EDU-SENSE analysis pipeline in Dafny

EDU-SENSE reads a log of answered questions. Each row holds a student, a
question, a topic, whether the answer was correct (0/1), the time taken and a
timestamp. From that log it derives:

- learning-gap findings per student;
- a clamped overall score;
- ranked intervention recommendations;
- an overview of all students.

This project models that pipeline and proves what its code promises. It also
models two small string parsers that sit beside it: the link-file reader of
the resource tables and the class-number extractor for student IDs.

The modules follow the program's files:

| module | file | what it holds |
|---|---|---|
| `Attempts` | shared | Rows, frames (present columns plus rows), row selection and counting, grouping by a key column in order of first appearance, means, sample variance, the stable sort by timestamp. |
| `OrderedDict` | shared | Python's insertion-ordered `dict` as a sequence of pairs: `get`, item assignment, `{**d, **e}`. |
| `Text` | shared | The ASCII `str` operations the code uses. |
| `Wrappers` | shared | `Option`. |
| `GapDetector` | `gap_detector.py` | `LearningGapDetector`: the concept-gap loop and the mistake-counting loop as methods; the confidence and speed detectors, gap-type classification and scoring as functions. |
| `AnalysisUtils`, `DataValidator`, `PerformanceMetrics` | `utils.py` | The three classes the analysis uses. |
| `RecommendationEngine` | `recommendation_engine.py` | Stable ordering by severity rank, dispatch on the gap-name prefix, the four templates, the concept review's branch table and resource map, and the cap at five. |
| `Fleet` | `app.py` | `_perform_overall_analysis`: the loop over students with its six accumulators. |
| `Resources` | `resources.py` | The line-by-line parser, subject normalisation, exact-then-related lookup, YouTube search URLs. |
| `ClassExtractor` | `class_extractor.py` | The four regular expressions as explicit leftmost scans, in first-match-wins order. |

Several things are modelled abstractly or passed in:

- **Standard deviation.** It is never computed. "std < k" is the predicate
  `Attempts.StdLess`: at least two values, `k > 0` and sample variance below
  `k * k`. With a single row pandas gives NaN and every comparison is false,
  which the predicate mirrors. Where the code uses the value itself
  (`calculate_consistency_score`), the deviation is a parameter `sd >= 0`
  with `sd * sd` equal to the sample variance.
- **Ingestion guarantees.** Correct is 0/1 and Time_Taken is at least 10
  (`Attempts.Normalized`). These are preconditions only where a property
  needs them. Where the code sums the Correct column (the gap-type
  accuracies) the model sums the stored values too; on 0/1 values the sum
  is the number of correct rows (`Attempts.CorrectSumCounts`).
- **Missing columns.** A detector that would raise `KeyError` on a missing
  column requires that column only when there are rows. Every branch on
  column presence in the code is modelled.
- **Timestamps.** They are integer seconds; `.days` is whole days of 86400
  seconds.
- **Passed in as parameters:**
  - the two link tables of `resources.py`;
  - the intervention library;
  - the topic-resource lookup used by the recommendation engine.

## Model

| member | source | states |
|---|---|---|
| GapDetector.SeverityFromAccuracy | EDU-SENSE-main/EDU-SENSE/gap_detector.py:265-272 | "high" exactly below 0.4, "medium" exactly from 0.4 below 0.7, "low" exactly from 0.7 |
| GapDetector.MostFrequent | EDU-SENSE-main/EDU-SENSE/gap_detector.py:127-128 | the label is the first maximum in the order easy, moderate, hard (each label characterised by an iff) |
| GapDetector.AnalyzeMistakeDifficulty | EDU-SENSE-main/EDU-SENSE/gap_detector.py:94-136 | the counting loop over wrong attempts yields `MistakeBreakdown`, the breakdown by time band against mean ± std |
| GapDetector.BreakdownTotals | EDU-SENSE-main/EDU-SENSE/gap_detector.py:99-125 | easy + moderate + hard = total mistakes = number of wrong attempts; the total is present iff there is a Time_Taken column and a mistake; when absent all counts are 0 |
| GapDetector.BandsPartition | EDU-SENSE-main/EDU-SENSE/gap_detector.py:111-125 | every row falls in exactly one of the fast, middle and slow bands |
| GapDetector.FastNotSlow | EDU-SENSE-main/EDU-SENSE/gap_detector.py:117-122 | no time is both below mean - std and above mean + std |
| GapDetector.ClassifyUnknown | EDU-SENSE-main/EDU-SENSE/gap_detector.py:152-161 | the gap type is Unknown iff fewer than 3 rows, or mistakes without a Time_Taken column; no mistakes (with 3 rows) gives Theoretical |
| GapDetector.AllWrongIsConceptual | EDU-SENSE-main/EDU-SENSE/gap_detector.py:173-192 | with every attempt wrong and more than one fast and one slow attempt, the easy/hard accuracies are both 0 and the decision list answers Conceptual |
| GapDetector.NoSpreadDecidedByMean | EDU-SENSE-main/EDU-SENSE/gap_detector.py:173-215 | with mistakes and no attempt outside mean ± std, the type is Conceptual iff the mean of the stored Correct values is below 0.35, else Theoretical |
| GapDetector.SummedCorrectExample | EDU-SENSE-main/EDU-SENSE/gap_detector.py:212-215 | three equally timed rows storing 2, 0, 0: no row counts as correct, yet the summed accuracy 2/3 makes the topic Theoretical |
| Attempts.MeanCorrect | EDU-SENSE-main/EDU-SENSE/gap_detector.py:177-178 | `Correct.sum() / len` or 0: 0 for no rows, otherwise the mean times the row count is the sum of the stored values |
| Attempts.CorrectSumCounts | EDU-SENSE-main/EDU-SENSE/gap_detector.py:177-178 | on 0/1 values the summed Correct is the count of rows with Correct == 1, so the mean is the accuracy |
| Attempts.EqualTimesNoSpread | EDU-SENSE-main/EDU-SENSE/gap_detector.py:164-174 | with all times equal the std is 0 and replaced by 1, so no attempt is easy or hard |
| GapDetector.DetectConceptGaps | EDU-SENSE-main/EDU-SENSE/gap_detector.py:60-92 | the loop over distinct topics yields `ConceptGaps`: nothing without a Topic column, otherwise an entry under each qualifying topic's key |
| GapDetector.ConceptGapsShape | EDU-SENSE-main/EDU-SENSE/gap_detector.py:65-90 | keys are distinct; a key is present iff it is `concept_gap_<t>` for a topic t with at least 3 attempts and accuracy below 0.6; every entry is that topic's finding |
| GapDetector.ConceptFindingShape | EDU-SENSE-main/EDU-SENSE/gap_detector.py:78-90 | severity "high" iff accuracy < 0.4, else "medium"; confidence = 1 - accuracy in (0.4, 1]; affected = the topic's attempt count (≥ 3); with Time_Taken the type is not Unknown and the breakdown sums to the topic's mistakes |
| GapDetector.AllCorrectTopicNoGap | EDU-SENSE-main/EDU-SENSE/gap_detector.py:72-78 | a topic answered entirely correctly is never a concept gap |
| GapDetector.QualifyingTopicHasMistakes | EDU-SENSE-main/EDU-SENSE/gap_detector.py:75-78 | on normalized rows a qualifying topic has at least one wrong attempt |
| GapDetector.GapKey | EDU-SENSE-main/EDU-SENSE/gap_detector.py:84 | the key starts with `concept_gap_` and is the topic's length plus 12: the topic lower-cased with spaces as underscores |
| GapDetector.ConfidenceGaps | EDU-SENSE-main/EDU-SENSE/gap_detector.py:221-241 | at most one entry, keyed `confidence_gap` |
| GapDetector.ConfidenceGapShape | EDU-SENSE-main/EDU-SENSE/gap_detector.py:221-241 | present iff some attempt is slower than 1.5 × mean and their error rate > 0.5; severity "high" iff rate ≥ 0.7; score = rate; affected = slow count |
| GapDetector.SpeedGaps | EDU-SENSE-main/EDU-SENSE/gap_detector.py:243-263 | at most one entry, keyed `speed_gap` |
| GapDetector.SpeedGapShape | EDU-SENSE-main/EDU-SENSE/gap_detector.py:243-263 | present iff more than 2 attempts are faster than 0.5 × mean with wrong ratio > 0.4; always "medium"; score = ratio; affected = fast count |
| GapDetector.UniformTimeNoTimingGaps | EDU-SENSE-main/EDU-SENSE/gap_detector.py:226-261 | equal positive times give neither a confidence nor a speed gap |
| GapDetector.Clamp01 | EDU-SENSE-main/EDU-SENSE/gap_detector.py:290 | `max(0, min(1, x))`: in [0,1], x itself inside, 0 below, 1 above |
| GapDetector.ConsistencyBonus | EDU-SENSE-main/EDU-SENSE/gap_detector.py:283-288 | 0.05 iff Time_Taken is present and std < 0.5 × mean, else 0; never for fewer than 2 times |
| GapDetector.OverallScore | EDU-SENSE-main/EDU-SENSE/gap_detector.py:274-291 | the score always lies in [0,1] |
| GapDetector.OverallScoreShape | EDU-SENSE-main/EDU-SENSE/gap_detector.py:274-291 | the score is accuracy - 0.1·#gaps + bonus whenever that lies in [0,1]; one more gap never raises it; accuracy ≤ 0.1·#gaps caps it at 0.05 |
| GapDetector.MergeDetectors | EDU-SENSE-main/EDU-SENSE/gap_detector.py:41 | merging the three maps as the detectors key them is concatenation, with distinct keys |
| GapDetector.AllGapsConcat | EDU-SENSE-main/EDU-SENSE/gap_detector.py:35-41 | the merged gap map is concept, then confidence, then speed entries, with distinct keys |
| GapDetector.AnalyzeStudent | EDU-SENSE-main/EDU-SENSE/gap_detector.py:15-58 | the analysis, running the concept-gap loop, equals `AnalysisOf` |
| GapDetector.EmptyFrameAnalysis | EDU-SENSE-main/EDU-SENSE/gap_detector.py:26-27 | an empty frame gives all-zero metrics, no gaps, score 0 and student "Unknown" (`_empty_analysis`, lines 293-303) |
| GapDetector.AnalysisMetrics | EDU-SENSE-main/EDU-SENSE/gap_detector.py:29-57 | attempts = rows; correct ≤ attempts; accuracy and score in [0,1]; the gap count is the sum of the three detectors'; keys distinct |
| GapDetector.NormalizedMean | EDU-SENSE-main/EDU-SENSE/gap_detector.py:33 | on normalized rows the mean time is at least 10 |
| GapDetector.PerfectStudent | EDU-SENSE-main/EDU-SENSE/gap_detector.py:15-58 | all answers correct in equal time: no gaps and an overall score of 1 |
| GapDetector.NoConceptGapsWhenAllCorrect | EDU-SENSE-main/EDU-SENSE/gap_detector.py:62-90 | a frame of correct answers has no concept gap |
| AnalysisUtils.TrendOf | EDU-SENSE-main/EDU-SENSE/utils.py:42-47 | "improving" iff improvement > 0.1, "declining" iff < -0.1, "stable" iff in between |
| AnalysisUtils.ProgressInsufficient | EDU-SENSE-main/EDU-SENSE/utils.py:25-26 | fewer than 2 attempts: trend "insufficient_data", improvement 0, no halves |
| AnalysisUtils.ProgressHalves | EDU-SENSE-main/EDU-SENSE/utils.py:29-54 | after the timestamp sort the halves are the first n//2 rows and the rest; improvement = second accuracy - first, in [-1,1]; the trend follows `TrendOf` |
| AnalysisUtils.SplitSorted | EDU-SENSE-main/EDU-SENSE/utils.py:32-34 | the two halves rebuild the sorted rows, every first-half row is no later than any second-half row, and their correct counts add up |
| AnalysisUtils.ProgressAllCorrect | EDU-SENSE-main/EDU-SENSE/utils.py:37-47 | a student who answers everything correctly is "stable" with improvement 0 |
| AnalysisUtils.TopicWisePerformance | EDU-SENSE-main/EDU-SENSE/utils.py:57-86 | the loop over distinct topics yields `TopicWise` |
| AnalysisUtils.TopicWiseShape | EDU-SENSE-main/EDU-SENSE/utils.py:67-86 | {} without a Topic column; otherwise one entry per distinct topic, in order of appearance, each with attempts ≥ 1, correct ≤ attempts, accuracy in [0,1] |
| AnalysisUtils.TopicAttemptsSum | EDU-SENSE-main/EDU-SENSE/utils.py:72-84 | the attempts over all topics add up to the number of rows |
| AnalysisUtils.WeakTopicsExactly | EDU-SENSE-main/EDU-SENSE/utils.py:100-107 | a topic is weak iff it occurs, its accuracy is below the threshold and it has at least 3 attempts |
| AnalysisUtils.ConsistencyScore | EDU-SENSE-main/EDU-SENSE/utils.py:121-135 | in [0,1]; 0.5 without Time_Taken or with fewer than 2 rows |
| AnalysisUtils.ConsistencyShape | EDU-SENSE-main/EDU-SENSE/utils.py:125-135 | with a positive mean: 1 iff sd = 0, 0 iff sd ≥ 2·mean, and 1 - sd/(2·mean) below that |
| AnalysisUtils.ConsistencyOfConstant | EDU-SENSE-main/EDU-SENSE/utils.py:125-135 | equal times have variance 0 and score 1 |
| DataValidator.ValidateStudentData | EDU-SENSE-main/EDU-SENSE/utils.py:232-265 | the checks append their errors in order, and the data is valid iff the list is empty |
| DataValidator.MissingFrom | EDU-SENSE-main/EDU-SENSE/utils.py:245-246 | exactly the required columns that are absent, in the listed order |
| DataValidator.ErrorsExactly | EDU-SENSE-main/EDU-SENSE/utils.py:242-263 | each error is reported iff its condition holds: missing columns (with the list), a Correct value outside {0,1}, a negative time, an empty frame; the non-numeric error is never reported |
| DataValidator.ErrorsOrdered | EDU-SENSE-main/EDU-SENSE/utils.py:242-263 | errors come in checking order, so none is reported twice |
| DataValidator.ValidExactly | EDU-SENSE-main/EDU-SENSE/utils.py:265 | valid iff all required columns are present, Correct is 0/1, no time is negative and there are rows |
| PerformanceMetrics.WindowSize | EDU-SENSE-main/EDU-SENSE/utils.py:289 | `max(3, n // 3)` |
| PerformanceMetrics.RollingAccuracy | EDU-SENSE-main/EDU-SENSE/utils.py:291-294 | n - w + 1 windows (none when n < w), each accuracy in [0,1] |
| PerformanceMetrics.CalculateLearningVelocity | EDU-SENSE-main/EDU-SENSE/utils.py:272-301 | the loop that appends window accuracies yields `LearningVelocity`: (last - first)/(windows - 1), or 0 |
| PerformanceMetrics.RollingWindows | EDU-SENSE-main/EDU-SENSE/utils.py:291-294 | the appending loop yields `RollingAccuracy` of the sorted rows |
| PerformanceMetrics.WindowCount | EDU-SENSE-main/EDU-SENSE/utils.py:289-297 | the window fits the rows, and there are at least 2 windows iff n ≥ 4 |
| PerformanceMetrics.VelocityBounds | EDU-SENSE-main/EDU-SENSE/utils.py:283-301 | velocity is 0 for at most 3 attempts and always lies in [-1,1] |
| PerformanceMetrics.SpanDays | EDU-SENSE-main/EDU-SENSE/utils.py:319 | whole days between the first and last timestamp |
| PerformanceMetrics.EngagementExactly | EDU-SENSE-main/EDU-SENSE/utils.py:314-332 | "low" with no rows or no Timestamp; otherwise "high" iff attempts ≥ days (always within a day), "medium" iff attempts < days ≤ 2·attempts, "low" iff beyond |
| RecommendationEngine.Rank | EDU-SENSE-main/EDU-SENSE/recommendation_engine.py:31 | `{'high': 3, 'medium': 2, 'low': 1}.get(s, 0)` never exceeds 3 |
| RecommendationEngine.SortedGapsRanked | EDU-SENSE-main/EDU-SENSE/recommendation_engine.py:29-33 | the sorted gaps come in non-increasing rank |
| RecommendationEngine.SortedGapsPermutation | EDU-SENSE-main/EDU-SENSE/recommendation_engine.py:29-33 | sorting is a permutation of the gaps |
| RecommendationEngine.SortedGapsStable | EDU-SENSE-main/EDU-SENSE/recommendation_engine.py:29-33 | gaps of equal rank keep their map order |
| RecommendationEngine.KindOfPrefix | EDU-SENSE-main/EDU-SENSE/recommendation_engine.py:49 | only the text before the first '_' decides the template |
| RecommendationEngine.ConceptKeyKind | EDU-SENSE-main/EDU-SENSE/recommendation_engine.py:49-52 | a `concept_gap_` key reaches the concept review |
| RecommendationEngine.DetectorGapsDispatch | EDU-SENSE-main/EDU-SENSE/recommendation_engine.py:46-58 | every gap the detector produces has a template |
| RecommendationEngine.CreateRecommendation | EDU-SENSE-main/EDU-SENSE/recommendation_engine.py:46-58 | a recommendation is made iff the prefix is concept, confidence or speed |
| RecommendationEngine.Maintenance | EDU-SENSE-main/EDU-SENSE/recommendation_engine.py:180-196 | priority "LOW", impact 0.10, four steps, no resources |
| RecommendationEngine.ConfidenceBuilding | EDU-SENSE-main/EDU-SENSE/recommendation_engine.py:142-159 | priority is the severity upper-cased, impact 0.20, the gap's description, five steps |
| RecommendationEngine.DeliberatePractice | EDU-SENSE-main/EDU-SENSE/recommendation_engine.py:161-178 | priority "MEDIUM" whatever the severity, impact 0.15, the gap's description, five steps |
| RecommendationEngine.LibraryShape | EDU-SENSE-main/EDU-SENSE/recommendation_engine.py:198-257 | the library holds its seven topics once each, each with 8 to 20 practice problems |
| RecommendationEngine.GapTopicHasNoSpace | EDU-SENSE-main/EDU-SENSE/recommendation_engine.py:62-65 | a topic taken from a gap key has no space, so the library's "data analysis" entry is never looked up |
| RecommendationEngine.PracticeTable | EDU-SENSE-main/EDU-SENSE/recommendation_engine.py:91-105 | high+declining gives the foundational plan with ≥ 20 problems; medium+declining the targeted plan with ≥ 15; every other severity except "improving" the structured plan with the problems unchanged |
| RecommendationEngine.PlanWithoutChallenge | EDU-SENSE-main/EDU-SENSE/recommendation_engine.py:99-102 | the challenge branch needs severity "improving" |
| RecommendationEngine.ChallengeBranchDead | EDU-SENSE-main/EDU-SENSE/recommendation_engine.py:99-102 | no severity the detector produces reaches the challenge branch |
| RecommendationEngine.DetectorFindingsPlain | EDU-SENSE-main/EDU-SENSE/recommendation_engine.py:72 | the detector never sets a trend or an expected impact, so the defaults "stable" and 0.25 apply |
| RecommendationEngine.BuildConceptResources | EDU-SENSE-main/EDU-SENSE/recommendation_engine.py:107-121 | the conditional assignments build `ConceptResources` |
| RecommendationEngine.ConceptResourcesKeys | EDU-SENSE-main/EDU-SENSE/recommendation_engine.py:107-121 | each library link, the websites and the videos are present iff non-empty |
| RecommendationEngine.ConceptResourcesDistinct | EDU-SENSE-main/EDU-SENSE/recommendation_engine.py:107-121 | the resource map's keys are distinct |
| RecommendationEngine.ConceptSteps | EDU-SENSE-main/EDU-SENSE/recommendation_engine.py:131-138 | six steps |
| RecommendationEngine.ConceptReviewShape | EDU-SENSE-main/EDU-SENSE/recommendation_engine.py:123-131 | priority is the severity upper-cased; a single target topic (the title-cased name); six steps; impact 0.25 unless the gap carries one |
| RecommendationEngine.ConceptReviewResources | EDU-SENSE-main/EDU-SENSE/recommendation_engine.py:107-121 | the review's resources are the library links then the topic's lists, with distinct keys, each present iff non-empty |
| RecommendationEngine.ConceptReviewStable | EDU-SENSE-main/EDU-SENSE/recommendation_engine.py:72-134 | without a trend the review is titled "(Stable)", takes the structured plan and practises the library's problem count (10 by default) |
| RecommendationEngine.GenerateRecommendations | EDU-SENSE-main/EDU-SENSE/recommendation_engine.py:13-44 | the method yields `Recommendations` |
| RecommendationEngine.ProduceInOrder | EDU-SENSE-main/EDU-SENSE/recommendation_engine.py:35-38 | the loop over the sorted gaps appends exactly what `Produced` lists |
| RecommendationEngine.ProducedCount | EDU-SENSE-main/EDU-SENSE/recommendation_engine.py:35-38 | one recommendation per gap with a template |
| RecommendationEngine.RecommendationsShape | EDU-SENSE-main/EDU-SENSE/recommendation_engine.py:35-44 | between 1 and 5 recommendations: the first five produced in sorted order, or the maintenance item alone when none was produced |
| RecommendationEngine.NoTemplateGivesMaintenance | EDU-SENSE-main/EDU-SENSE/recommendation_engine.py:41-42 | gaps without templates give exactly the maintenance item |
| RecommendationEngine.DetectorRecommendationCount | EDU-SENSE-main/EDU-SENSE/recommendation_engine.py:13-44 | for a detector analysis with n gaps: 1 recommendation when n = 0, else min(n, 5) |
| RecommendationEngine.ImprovementTimes | EDU-SENSE-main/EDU-SENSE/recommendation_engine.py:259-266 | each estimate belongs to exactly one severity; anything else gets "1 week" |
| Fleet.Band | EDU-SENSE-main/EDU-SENSE/app.py:335-340 | high risk iff score < 0.5, medium iff 0.5 ≤ score < 0.75, on track iff score ≥ 0.75 |
| Fleet.PerformOverallAnalysis | EDU-SENSE-main/EDU-SENSE/app.py:304-352 | the loop over distinct students with six accumulators yields `OverallAnalysis` |
| Fleet.AddStudent | EDU-SENSE-main/EDU-SENSE/app.py:329-340 | one student's analysis added to the accumulators, as `Tally` |
| Fleet.BandsCoverStudents | EDU-SENSE-main/EDU-SENSE/app.py:325-340 | every student is counted in exactly one band |
| Fleet.TotalsAreGroupSums | EDU-SENSE-main/EDU-SENSE/app.py:329-331 | the summed attempts and correct answers are the sums over the students' groups |
| Fleet.OverallAnalysisShape | EDU-SENSE-main/EDU-SENSE/app.py:305-342 | an empty dataset gives all zeros; bands sum to the number of distinct students; total attempts = rows; total correct = correct rows ≤ attempts; accuracy is their ratio, in [0,1] |
| Resources.ParseResourceFile | EDU-SENSE-main/EDU-SENSE/resources.py:60-118 | the loop over lines yields `ParseResources` |
| Resources.ReadLine | EDU-SENSE-main/EDU-SENSE/resources.py:64-114 | one line read into the parser's variables, as `ParseLine` |
| Resources.ReadSubjectLine | EDU-SENSE-main/EDU-SENSE/resources.py:75-101 | a subject line stores the previous subject, makes the lower-cased left part current and keeps its first link |
| Resources.SubjectLineLinks | EDU-SENSE-main/EDU-SENSE/resources.py:92-100 | the right-hand side's link, numbered or bare, kept only when it starts with "http" |
| Resources.FirstLinks | EDU-SENSE-main/EDU-SENSE/resources.py:92-100 | at most one link, starting with "http" |
| Resources.ParsedTableWellFormed | EDU-SENSE-main/EDU-SENSE/resources.py:85-118 | every stored subject is non-empty and lower-case with a non-empty list of "http" links, and no subject is stored twice |
| Resources.LinesBeforeSubjectsIgnored | EDU-SENSE-main/EDU-SENSE/resources.py:104-114 | lines before the first subject line contribute nothing |
| Resources.ParseLinesConcat | EDU-SENSE-main/EDU-SENSE/resources.py:64-114 | reading a then b is reading a + b |
| Resources.NormalizeSubject | EDU-SENSE-main/EDU-SENSE/resources.py:133-157 | lower-case; the cleaned name through the alias table, or itself when it has no alias |
| Resources.MathsAliases | EDU-SENSE-main/EDU-SENSE/resources.py:142-150 | every mathematical name is normalised to "maths" |
| Resources.FirstRelated | EDU-SENSE-main/EDU-SENSE/resources.py:177-179 | the first subject related to the name by substring, or past the end |
| Resources.LinksForCases | EDU-SENSE-main/EDU-SENSE/resources.py:160-181 | the exact key wins; otherwise the first related subject; otherwise [] |
| Resources.LinksForEmpty | EDU-SENSE-main/EDU-SENSE/resources.py:160-181 | on a parsed table the lookup is [] iff no key equals or relates to the name |
| Resources.ChannelName | EDU-SENSE-main/EDU-SENSE/resources.py:218-223 | the channel name contains no '/' |
| Resources.GetYouTubeLinks | EDU-SENSE-main/EDU-SENSE/resources.py:184-257 | the base links then their search URLs, as `YouTubeLinks` |
| Resources.ClassSearchLinks | EDU-SENSE-main/EDU-SENSE/resources.py:211-236 | with a class level, the loop builds one "topic class N channel" URL per link |
| Resources.PlainSearchLinks | EDU-SENSE-main/EDU-SENSE/resources.py:237-255 | without one, the loop builds one "topic channel" URL per link |
| Resources.YouTubeShape | EDU-SENSE-main/EDU-SENSE/resources.py:211-257 | one URL per base link (none when there are none), each the search prefix followed by a query without spaces |
| Resources.ResourcesForTopic | EDU-SENSE-main/EDU-SENSE/resources.py:260-274 | the websites are the lookup's links; one search URL per base video link |
| ClassExtractor.ExtractClass | EDU-SENSE-main/EDU-SENSE/class_extractor.py:24-25 | an empty ID has no class |
| ClassExtractor.SearchLeftmost | EDU-SENSE-main/EDU-SENSE/class_extractor.py:31 | `re.search` finds a match iff some position matches, and it is the leftmost |
| ClassExtractor.CaseInsensitive | EDU-SENSE-main/EDU-SENSE/class_extractor.py:28 | IDs that agree up to case get the same class |
| ClassExtractor.UpperCaseSameClass | EDU-SENSE-main/EDU-SENSE/class_extractor.py:28 | the upper-cased ID gets the same class |
| ClassExtractor.ExtractByClass | EDU-SENSE-main/EDU-SENSE/class_extractor.py:31-33 | a 'class' match wins over every other pattern |
| ClassExtractor.ExtractByGrade | EDU-SENSE-main/EDU-SENSE/class_extractor.py:35-38 | failing that, a c/gr/grade match wins |
| ClassExtractor.TrailingDigitAtEnd | EDU-SENSE-main/EDU-SENSE/class_extractor.py:41 | `[_-](\d)$` matches only at the end or before a final newline |
| ClassExtractor.TrailingRange | EDU-SENSE-main/EDU-SENSE/class_extractor.py:40-54 | without a word match the answer is from 1 to 12, and a single trailing digit at most 9 |
| ClassExtractor.SingleDigitSuffix | EDU-SENSE-main/EDU-SENSE/class_extractor.py:40-46 | an ID ending in a separator and one digit gets that digit when it is 1-9, and no class for 0 |
| ClassExtractor.TwoDigitSuffix | EDU-SENSE-main/EDU-SENSE/class_extractor.py:48-54 | an ID ending in a separator and two digits gets their value iff it is from 1 to 12 |
| ClassExtractor.ClassWordSuffix | EDU-SENSE-main/EDU-SENSE/class_extractor.py:30-33 | 'class' followed by digits gets their full value, unchecked against 1-12 |
| ClassExtractor.GradeWordSuffix | EDU-SENSE-main/EDU-SENSE/class_extractor.py:35-38 | 'grade' followed by digits gets their value, unchecked against 1-12 |
| ClassExtractor.LetterCSuffix | EDU-SENSE-main/EDU-SENSE/class_extractor.py:35-38 | 'c' followed by digits gets their value |
| ClassExtractor.ClassExample | EDU-SENSE-main/EDU-SENSE/class_extractor.py:19 | "STU_1001_Class6" has class 6 |
| ClassExtractor.DigitExample | EDU-SENSE-main/EDU-SENSE/class_extractor.py:19 | "STU_1001_6" has class 6 |
| ClassExtractor.LetterExample | EDU-SENSE-main/EDU-SENSE/class_extractor.py:35 | "STU1001C6" has class 6 |
| ClassExtractor.GradeExample | EDU-SENSE-main/EDU-SENSE/class_extractor.py:35-38 | "STU_Grade15" has class 15: the word patterns do not check the range |
| Attempts.GroupsPartition | EDU-SENSE-main/EDU-SENSE/app.py:316-331 | summing a count over the distinct key groups gives the count over all rows |
| Attempts.SortByTimestamp | EDU-SENSE-main/EDU-SENSE/utils.py:29 | the sort by timestamp is sorted and a permutation |
| Attempts.Groups | EDU-SENSE-main/EDU-SENSE/utils.py:72 | `unique()`: each key once, exactly the keys that occur |
| Attempts.GroupsInOrder | EDU-SENSE-main/EDU-SENSE/gap_detector.py:68 | the topics are visited in the order of their first rows |
| Attempts.Distinct | EDU-SENSE-main/EDU-SENSE/app.py:316 | `unique()`: no value twice, exactly the values that occur |
| Attempts.DistinctInOrder | EDU-SENSE-main/EDU-SENSE/app.py:316 | the distinct values come in the order of their first positions |
| OrderedDict.Put | EDU-SENSE-main/EDU-SENSE/gap_detector.py:84 | `d[k] = v`: an existing key keeps its position, a new key goes last; the get of k is v and of every other key unchanged |
| OrderedDict.UpdateDisjoint | EDU-SENSE-main/EDU-SENSE/gap_detector.py:41 | merging maps with disjoint keys concatenates them |

## Left out

- I/O: reading the link files and finding them on disk (`resources.py`
  lines 11-43, 52-57, 129-130, and the exception printing) are not modelled.
  The two tables are parameters.
- The Streamlit dashboard in `app.py` outside `_perform_overall_analysis`,
  `data_ingestion.py`, `data_generator.py`, `config.py` and the
  test scripts are not part of this model. Of ingestion, only the 0/1 and
  minimum-time guarantees are used, as preconditions.
- `ReportGenerator` in `utils.py` is not modelled: it formats text and reads
  the wall clock.
- `real` stands for floating point. Rounding, NaN and infinities are not
  modelled except where the code depends on them:
  - the NaN standard deviation of one row, through `Attempts.StdLess`;
  - the infinite coefficient of variation for a non-positive mean, through
    `AnalysisUtils.ConsistencyScore`.
- The square root is not computed. The standard deviation is the proposition
  `Attempts.StdLess` in the detector, and a parameter tied to the sample
  variance in `AnalysisUtils.ConsistencyScore`.
- Descriptions are not rendered. The percentage formatting (`:.1%`) of the
  finding and recommendation descriptions is kept as a structured
  `Description` value, not a string.
- Strings are ASCII only. `lower`, `upper`, `title`, `isalpha`, `isdigit`,
  `isspace`, `\d` and `\s` are modelled on ASCII. Unicode case mapping and
  Unicode digits are not.
- `ClassExtractor.ExtractClass`: IDs are strings. The code's `isinstance`
  test for non-string IDs has no counterpart, so only the empty-ID `None`
  case is modelled.
- `DataValidator.ValidateStudentData`: `is_numeric_dtype` has no counterpart
  on typed rows. Times are always numbers, so the "must be numeric" error is
  never reported (`TimeNotNumeric` exists but is never produced).
- `Attempts.SortByTimestamp`: the sort by timestamp is a stable insertion
  sort. pandas' default sort does not fix the order of equal timestamps.
- The `estimated_time` library field is carried but unused, as in the code.
  The `accuracy` argument of `_create_recommendation` is left out because no
  template reads it.
- `class_level` reaches the recommendation engine only through the injected
  topic-resource lookup.
- `Resources.ResourcesForTopic`: the YouTube URLs are stated by count and
  prefix. Their exact queries are stated per link by
  `Resources.SearchLinksAt`.
- Concept-gap keys: the key is the topic lower-cased with spaces replaced
  by underscores. Two topics that differ only in case, or in space versus
  underscore, get the same key. The later one overwrites the entry in place,
  as a Python dict does, so `GapDetector.ConceptGapsShape` speaks of keys and
  entries rather than of one entry per topic.
- `GapDetector.ClassifyGapType` follows the code's order: the "no mistakes"
  test comes before the Time_Taken column test.
