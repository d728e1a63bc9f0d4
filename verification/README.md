# Article-generation experimentation stores, modelled in Dafny

This project models the record-keeping core of an article-generation
system. It has three parts:

- **Experiment** (`Experiments`, experiment.py) is an A/B-test store. It keeps
  prompt variants keyed by id in insertion order, and an append-only list of
  trials. Each trial must carry a value for every declared metric.
  `AnalyzeResults` compares every variant against a control variant the
  caller chooses: sample size, mean, relative improvement and a summary.
  `GetBestVariant` picks the variant with the highest mean for a metric.
- **FeedbackManager** (`Feedback`, feedback.py) is a human-feedback store. It
  keeps rating criteria keyed by id in insertion order, and an append-only
  list of responses. A response must rate every criterion, and each rating
  must lie on its criterion's scale. The store computes per-article averages
  with a weighted overall score, and global statistics.
- **Trace logger** (`TraceLogging`, trace_logger.py) covers the file name a
  generation trace is saved under and the directory it goes to. It also
  covers which saved traces `get_traces` returns, and in which order. The
  two directories are modelled as an in-memory listing.

`Common` holds Option/Result, JSON-like metadata and an order-preserving
filter. `Stats` holds sums, means and minimum/maximum.

The stores are classes with a `Valid()` invariant:

- Mutating operations are methods with `modifies this`. Each states its whole
  new state and preserves `Valid()`.
- Read-only operations that loop are methods whose loops are proved equal to
  specification functions. Those functions carry the lemmas.
- `get_article_feedback` and `get_evaluator_feedback` are single list
  comprehensions. They are the filter functions `ArticleFeedback` and
  `EvaluatorFeedback` over the stored responses, with no method of their own.

Exceptions are modelled as `Failure` values:

- ValueError, KeyError and ZeroDivisionError become `ExperimentError` and
  `FeedbackError` cases.
- numpy's division of a mean by a zero control mean gives ±inf or NaN, not an
  error. This is modelled by the `Improvement` datatype.

Two facts about the code shape the model:

- `record_trial` (experiment.py:103-142) does not check the variant id; the
  model accepts any.
- The rating check at feedback.py:107 converts the scale's entries, not their
  keys (see Findings).

## Model

| member | source | states |
|---|---|---|
| Experiments.MissingMetricNames | article_generation/experimentation/experiment.py:126 | the result is exactly the declared metrics that have no value in the submitted metrics |
| Experiments.Experiment.constructor | article_generation/experimentation/experiment.py:54-59 | a new experiment keeps its name, description and metrics, with no variants and no trials |
| Experiments.Experiment.AddVariant | article_generation/experimentation/experiment.py:89-101 | the returned id was not registered; afterwards it maps to exactly the given fields, with temperature 0.7, max tokens 4096 and `{}` metadata by default; it is appended to the insertion order; other variants and all trials are unchanged; the invariant is kept |
| Experiments.Experiment.RecordTrial | article_generation/experimentation/experiment.py:125-142 | fails with MissingMetrics(missing) exactly when a declared metric is missing, leaving the trials unchanged; otherwise appends exactly one trial with the given fields, returns its id, and leaves the variants unchanged; the variant id is not checked; every stored trial carries every declared metric |
| Experiments.Samples | article_generation/experimentation/experiment.py:165-169 | a variant's samples are empty exactly when no trial belongs to it |
| Experiments.SamplesOfTrials | article_generation/experimentation/experiment.py:189-193 | the samples are, one per trial of the variant and in recording order, that trial's metric value |
| Experiments.SamplesAfterAppend | article_generation/experimentation/experiment.py:130-140 | recording a trial extends its own variant's samples by its value and leaves every other variant's samples unchanged |
| Experiments.ImprovementIsGain | article_generation/experimentation/experiment.py:217-227 | `((variant_mean / control_mean) - 1) * 100 > 0` holds exactly when the variant's mean exceeds a positive control mean; it is reversed for a negative control mean; for a zero control mean it holds exactly when the variant mean is positive (+inf) |
| Experiments.ImprovementOf | article_generation/experimentation/experiment.py:217 | for a non-zero control mean the improvement is a finite percentage p with p times the control mean equal to 100 times the difference of the means; for a zero control mean it is +inf, -inf or NaN exactly as the variant mean is positive, negative or zero (numpy float division) |
| Experiments.ControlReport | article_generation/experimentation/experiment.py:177-182 | the control's entry has its own id and name, no comparison, the control sample size, and a mean that times the sample size is the samples' sum |
| Experiments.CompareWithControl | article_generation/experimentation/experiment.py:189-218 | a compared variant's entry has its own id and name, its sample size, a mean that times that size is its samples' sum, the significance of its samples against the control's, and, for a positive control mean, an improvement that counts as a gain exactly when its mean beats the control's |
| Experiments.Compared | article_generation/experimentation/experiment.py:185-218 | the comparison loop adds at most one entry per variant id visited, and every entry belongs to a visited variant |
| Experiments.ComparedEntries | article_generation/experimentation/experiment.py:185-196 | every compared entry is a non-control variant with samples, carrying its own sample size, mean, significance and improvement; every non-control variant with samples has an entry |
| Experiments.ComparedDistinct | article_generation/experimentation/experiment.py:185-218 | distinct variant ids give entries for distinct variants, as in the dictionary keyed by variant id |
| Experiments.CountGains | article_generation/experimentation/experiment.py:225-228 | the count of significant improvements is at most the number of entries that carry a comparison |
| Experiments.GainsAtMostCompared | article_generation/experimentation/experiment.py:177-228 | the control entry contributes nothing; the count is at most the number of compared variants |
| Experiments.MeanEntry | article_generation/experimentation/experiment.py:247-253 | a variant has a mean exactly when it has samples |
| Experiments.Present | article_generation/experimentation/experiment.py:245-256 | the means collected are empty exactly when no variant has a mean |
| Experiments.NoneMeansNoSamples | article_generation/experimentation/experiment.py:255-256 | an empty collection of means means that no registered variant has samples |
| Experiments.MeansEntries | article_generation/experimentation/experiment.py:245-253 | the collected means are exactly the registered variants that have samples, each paired with the mean of its samples |
| Experiments.FirstMax | article_generation/experimentation/experiment.py:258 | Python's `max` by value picks a largest mean that is strictly larger than every earlier mean (ties go to the first) |
| Experiments.FirstMaxIsBest | article_generation/experimentation/experiment.py:246-258 | the entry `max` picks is at a registered position whose mean is the largest and strictly larger than every earlier one |
| Experiments.Experiment.AnalyzeResults | article_generation/experimentation/experiment.py:154-231 | the error cases: UnknownMetric for an undeclared metric, NoControlData when the control has no samples, and a KeyError when the control is not registered; it succeeds in every other case, with the control's entry (sample size and mean of its samples) followed by exactly the compared entries in insertion order, and a summary of the total trials, the earliest and latest trial instants, and the count of significant gains |
| Experiments.MeansSnoc | article_generation/experimentation/experiment.py:246-253 | registering one more variant adds its id and sample mean to the collected means exactly when it has samples, after all earlier ones |
| Experiments.BestVariant | article_generation/experimentation/experiment.py:245-258 | no variant is chosen exactly when no registered variant has a mean |
| Experiments.BestVariantIsBest | article_generation/experimentation/experiment.py:245-258 | a chosen variant is registered, has the largest mean, and no earlier variant has as large a mean; when none is chosen, no registered variant has samples |
| Experiments.Experiment.GetBestVariant | article_generation/experimentation/experiment.py:242-258 | None without trials; otherwise a KeyError exactly when a trial of a registered variant lacks the metric, and else the loop's result is BestVariant of the registered variants (so, by BestVariantIsBest, the first variant with the largest mean, or None when none has samples) |
| Experiments.BestExampleSamplesOf | article_generation/experimentation/experiment.py:247-251 | in the best-variant scenario, variant1's samples are [9] and variant2's are [7] |
| Experiments.BestVariantExample | article_generation/experimentation/experiment.py:242-258 | with variant1 scoring 9 and variant2 scoring 7, variant1 is the one and only best variant, and it is the variant chosen |
| Experiments.SamplesConcat | article_generation/experimentation/experiment.py:165-169 | the samples of two runs of trials recorded one after the other are the first run's samples followed by the second's |
| Experiments.SamplesOfRun | article_generation/experimentation/experiment.py:165-169 | a run of trials recorded for one variant yields exactly that run's scores as the variant's samples, in order |
| Experiments.ComparedSnoc | article_generation/experimentation/experiment.py:185-218 | one more variant in the loop adds its comparison entry at the end when it is not the control and has samples, and nothing otherwise |
| Experiments.AnalysisTestExample | article_generation/experimentation/experiment.py:144-218 | with five control trials scoring 7, 8, 7, 8, 7 and five test trials scoring 8, 9, 8, 9, 8, the analysis against the control has exactly one compared entry: the test variant, with 5 samples, mean 8.4, and a gain over the control mean of 7.4 |
| Experiments.GainsOfOne | article_generation/experimentation/experiment.py:225-228 | next to the control's entry, one compared entry counts as a significant improvement exactly when it is significant and a gain |
| Experiments.AnalysisTestGains | article_generation/experimentation/experiment.py:220-231 | in that scenario the summary counts one significant improvement exactly when the t-test finds the difference significant, and none otherwise |
| Stats.Least | article_generation/experimentation/experiment.py:223 | `min` is one of the values and no value is below it |
| Stats.Greatest | article_generation/experimentation/experiment.py:224 | `max` is one of the values and no value is above it |
| Stats.MeanWithin | article_generation/experimentation/experiment.py:253 | a mean of samples that all lie in [lo, hi] lies in [lo, hi] |
| Stats.IntMeanBetween | article_generation/experimentation/feedback.py:216-218 | `sum(ratings) / len(ratings)` lies between `min` and `max` of the ratings |
| Feedback.MissingCriteria | article_generation/experimentation/feedback.py:100 | a criterion id is missing exactly when it is registered and not rated |
| Feedback.AllowedValues | article_generation/experimentation/feedback.py:107 | one allowed value per scale entry (AllowedValuesOnScale states which values they are) |
| Feedback.AllowedValuesOnScale | article_generation/experimentation/feedback.py:107-108 | a rating is allowed exactly when some scale entry has it as its integer key |
| Feedback.RatingsOnScaleGrow | article_generation/experimentation/feedback.py:67-77 | registering a new criterion keeps every stored rating on its criterion's scale |
| Feedback.Acceptable | article_generation/experimentation/feedback.py:99-111 | a submission that passes both checks rates exactly the registered criteria: its keys are the criteria's keys |
| Feedback.Offending | article_generation/experimentation/feedback.py:103-111 | a rating the check names, an unknown criterion or a value off its scale, makes the submission unacceptable |
| Feedback.AsWrittenAllowedValues | article_generation/experimentation/feedback.py:107 | converting the scale's entries succeeds only for an empty scale, and then yields no values |
| Feedback.AsWrittenAcceptsNothing | article_generation/experimentation/feedback.py:100-112 | the check as written accepts a submission exactly when there are no criteria and no ratings |
| Feedback.AsWrittenRejectsTestSubmission | article_generation/experimentation/feedback.py:105-112 | a scale 1, 3, 5 rated 5 is accepted by the intended check and rejected by the check as written |
| Feedback.ArticleFeedback | article_generation/experimentation/feedback.py:136 | exactly the responses about the article, each taken from the stored responses |
| Feedback.EvaluatorFeedback | article_generation/experimentation/feedback.py:147 | exactly the responses by the evaluator, each taken from the stored responses |
| Feedback.ArticleFeedbackAfterRecord | article_generation/experimentation/feedback.py:123-136 | a recorded response joins its article's feedback after all earlier responses, and no other article's feedback changes |
| Feedback.EvaluatorFeedbackAfterRecord | article_generation/experimentation/feedback.py:123-147 | a recorded response joins its evaluator's feedback after all earlier responses, and no other evaluator's feedback changes |
| Feedback.RatingsOf | article_generation/experimentation/feedback.py:167-171 | a criterion's ratings are empty exactly when no response rates it |
| Feedback.RatingsOfGiven | article_generation/experimentation/feedback.py:167-171 | every rating collected for a criterion is the one some response gives it |
| Feedback.PerCriterionEntries | article_generation/experimentation/feedback.py:166-173 | every stored name belongs to a criterion with ratings, and holds the summary of that criterion's ratings |
| Feedback.PerCriterionComplete | article_generation/experimentation/feedback.py:166-173 | every criterion with ratings has its name stored |
| Feedback.PerCriterionDistinctNames | article_generation/experimentation/feedback.py:166-173 | a rated criterion whose name no later criterion shares has its own summary stored under its name (so with distinct names every rated criterion does) |
| Feedback.PerCriterionEmpty | article_generation/experimentation/feedback.py:166-173 | the per-criterion loop stores nothing exactly when no criterion has ratings |
| Feedback.AverageScores | article_generation/experimentation/feedback.py:166-173 | there are no averages exactly when no criterion of the article was rated, the case `if scores:` (line 176) skips |
| Feedback.AverageScoresWithinRatings | article_generation/experimentation/feedback.py:166-173 | each stored average is `sum/len` of a same-named criterion's ratings, and lies between their minimum and maximum |
| Feedback.WeightedSumBetween | article_generation/experimentation/feedback.py:177-181 | with non-negative weights and averages in [lo, hi], the weighted sum lies between lo and hi times the total weight |
| Feedback.TotalWeightBounds | article_generation/experimentation/feedback.py:163 | with non-negative weights, the total weight is non-negative and at least every criterion's weight |
| Feedback.WeightedSumUnscored | article_generation/experimentation/feedback.py:177-181 | criteria whose name has no average contribute nothing to the weighted sum (`if c.name in scores`) |
| Feedback.ArticleScore | article_generation/experimentation/feedback.py:158-184 | empty without responses; ZeroDivisionError exactly when there are responses and averages and the total weight is 0; otherwise every average is kept under its name, and "overall" is present exactly when some criterion was rated; the result has no other keys |
| Feedback.OverallBetween | article_generation/experimentation/feedback.py:176-182 | with non-negative weights, a nonzero total, a score for every criterion and every score in [lo, hi], the weighted sum divided by the total weight lies in [lo, hi] |
| Feedback.OverallWithinAverages | article_generation/experimentation/feedback.py:176-182 | with non-negative weights, a nonzero total and every criterion rated, the overall score lies within any bounds of the averages |
| Feedback.UnratedWeightLowersOverall | article_generation/experimentation/feedback.py:163-182 | the divisor is the weight of all criteria: Quality 4 (weight 2) with Structure unrated (weight 1) gives overall 8/3 |
| Feedback.ArticleScoreExample | article_generation/experimentation/feedback.py:158-184 | Quality 4 and 5 (weight 2) with Structure 5 and 4 (weight 1) give Quality = Structure = overall = 4.5 |
| Feedback.RatingStats | article_generation/experimentation/feedback.py:214-219 | count is the number of ratings; min and max are ratings that bound all of them; the mean is `sum/len` and lies between min and max |
| Feedback.CriteriaStats | article_generation/experimentation/feedback.py:206-219 | there are no per-criterion statistics exactly when no criterion was rated |
| Feedback.DistinctCountsAtMostTotal | article_generation/experimentation/feedback.py:196-198 | there are never more unique articles or evaluators than responses |
| Feedback.StatsOf | article_generation/experimentation/feedback.py:192-221 | empty exactly when there are no responses; otherwise the total, the unique counts (each at most the total), the per-criterion statistics, and a time range that bounds every response and is attained at both ends |
| Feedback.StatsExample | article_generation/experimentation/feedback.py:192-221 | five responses rating 1 to 5 for five articles from two evaluators give 5 / 5 / 2, mean 3, min 1, max 5 |
| Feedback.FeedbackManager.constructor | article_generation/experimentation/feedback.py:39-41 | a new store has no criteria and no responses |
| Feedback.FeedbackManager.AddCriterion | article_generation/experimentation/feedback.py:67-77 | the returned id was not registered; afterwards it maps to exactly the given criterion, with weight 1.0 by default; it is appended to the insertion order; responses are unchanged |
| Feedback.FeedbackManager.RecordFeedback | article_generation/experimentation/feedback.py:99-125 | fails exactly when the submission leaves a criterion unrated or has a rating that is unknown or off its scale; a missing criterion is reported as MissingRatings of exactly the missing ids, otherwise the error names an offending rating; nothing changes on failure; on success exactly one response with the given fields (`{}` metadata by default) is appended and its id returned |
| Feedback.FeedbackManager.CalculateArticleScore | article_generation/experimentation/feedback.py:158-184 | the loop computes `ArticleScore` of the article's responses |
| Feedback.FeedbackManager.GetFeedbackStats | article_generation/experimentation/feedback.py:192-221 | the loop computes `StatsOf` the stored responses |
| TraceLogging.SafeChar | article_generation/evaluation/trace_logger.py:62 | a character maps to a safe character; it maps to something other than `_` exactly when it is alphanumeric, and then to its lower-case form |
| TraceLogging.SafeTitle | article_generation/evaluation/trace_logger.py:62 | same length as the title; every character is a lower-case letter, digit or `_`; alphanumerics are kept lower-cased; everything else becomes `_` |
| TraceLogging.SafeTitleIdempotent | article_generation/evaluation/trace_logger.py:62 | sanitising a sanitised title leaves it unchanged |
| TraceLogging.SafeTitleFixpoints | article_generation/evaluation/trace_logger.py:62 | sanitising leaves a title unchanged exactly when it holds only lower-case letters, digits and `_` |
| TraceLogging.Filename | article_generation/evaluation/trace_logger.py:62-64 | the file name ends in `.json`, begins with the sanitised title and `_`, and then holds the clock stamp |
| TraceLogging.LogTrace | article_generation/evaluation/trace_logger.py:51-68 | the trace goes to the error directory exactly when an error is given; its error field is that error (None otherwise); the file name, timestamp, title, keywords, prompt, response and metadata (`{}` by default) are as given |
| TraceLogging.Dirs | article_generation/evaluation/trace_logger.py:96-98 | the success directory is always read; the error directory is read exactly when not success-only |
| TraceLogging.Loaded | article_generation/evaluation/trace_logger.py:101-117 | one directory contributes at most one trace per listing entry (LoadedMembers states which) |
| TraceLogging.Collected | article_generation/evaluation/trace_logger.py:100-117 | the directories together contribute at most one trace per listing entry and directory |
| TraceLogging.LoadedMembers | article_generation/evaluation/trace_logger.py:101-119 | a trace is loaded from a directory exactly when a loadable `.json` entry of that directory holds it and passes the date filters |
| TraceLogging.CollectedMembers | article_generation/evaluation/trace_logger.py:95-119 | a trace is collected exactly when one of the directories read holds it in a selected entry |
| TraceLogging.CollectedInWindow | article_generation/evaluation/trace_logger.py:112-115 | every collected trace satisfies start ≤ timestamp and timestamp ≤ end, for each bound that is given |
| TraceLogging.Insert | article_generation/evaluation/trace_logger.py:121 | inserting into a newest-first list keeps it newest first and adds exactly the inserted trace |
| TraceLogging.SortDesc | article_generation/evaluation/trace_logger.py:121 | the result is newest first and a permutation of the input |
| TraceLogging.LoadDirectory | article_generation/evaluation/trace_logger.py:101-119 | the loop over a directory listing yields exactly the selected traces, in listing order |
| TraceLogging.GetTraces | article_generation/evaluation/trace_logger.py:95-121 | the result is newest first and a permutation of the selected traces of the directories read |
| TraceLogging.LoggedTraceRetrieved | article_generation/evaluation/trace_logger.py:51-121 | a trace that was logged and is listed is returned when it passes the date filters and is not an error trace (or error traces are requested) |
| TraceLogging.SuccessOnlyHasNoErrors | article_generation/evaluation/trace_logger.py:58-98 | when files are where the logger puts them, a success-only query returns no trace with an error |
| TraceLogging.GetTracesExample | article_generation/evaluation/trace_logger.py:51-121 | one successful and one failed trace: both are returned when error traces are requested, only the successful one otherwise, and none with a later start date |

## Left out

- JSON persistence is not modelled; the stores are in memory only. That covers the experiment's save/load, the feedback store's save/load, the constructors' loading of a stored snapshot, the trace file writes and reads, and `os.makedirs`.
- The numpy/scipy statistics are not modelled: `np.std`, the t-test p-value and the pooled-std effect size. The significance flag `p_value < 0.05` is a caller-supplied function of the control's and the variant's samples.
- `to_dataframe` (a pandas projection) is not modelled.
- `uuid.uuid4()` and `datetime.now()` are parameters. A fresh id is required to be unused, and instants are integers. The trace's isoformat string is modelled as its instant, and the `strftime` file-name stamp as a string parameter.
- Floating-point rounding is not modelled: metric values, means, weights and scores are exact reals, and ratings are integers.
- Character classes are ASCII only: `str.isalnum` and `str.lower` are not modelled beyond ASCII.
- Logging calls and file paths (`os.path.join`) are not modelled; an entry records its directory and file name.
- The scale entries are modelled as their parsed integer keys plus labels.
- The stores are modelled with value semantics. A trial's `metrics` dictionary (experiment.py:136), a response's `ratings` dictionary (feedback.py:119) and a criterion's `scale` list (feedback.py:72) are stored as copies. The source stores the caller's own objects, so a caller that changed one after the call would change the store and could break the `Valid()` invariants (every declared metric present, every rating on its scale). That aliasing is not captured.
- The parameterless `analyze_results()`, `record_trial(variant_name=...)` and `add_variant` without a model are not modelled. They are called from run_experiment.py, and experiment.py does not define them.
- TraceLogging.GetTraces: the result is not stated to be stable (Python's `sorted` keeps equally-timed traces in collection order). Only newest-first order and the permutation are stated.
- Feedback.FeedbackManager.RecordFeedback: when several ratings fail the check, which one is reported is left open. The source reports the first in the dictionary's iteration order.
- The source's feedback tests rate criteria outside their declared scales (4 on 1/5; 2, 3 and 4 on 1/5). RecordFeedback rejects those submissions. The scoring and statistics examples are therefore stated on the response lists directly (ArticleScoreExample, StatsExample).

## Findings

| source | as written | input that shows it | evidently intended | confidence | as-written member | corrected member |
|---|---|---|---|---|---|---|
| article_generation/experimentation/feedback.py:107 | `[int(v) for v in criterion.scale]` converts each scale entry, a `{value: label}` dictionary; `int` of a dictionary raises TypeError, so every rating of a criterion with a non-empty scale is rejected | one criterion with scale `[{"1": "Poor"}, {"3": "Average"}, {"5": "Excellent"}]` rated 5 | the allowed values are the integer keys of the scale's entries, so 5 is accepted | high (not executed) | Feedback.AsWrittenAcceptsNothing | Feedback.FeedbackManager.RecordFeedback |
