/**
 * The human-feedback store: rating criteria keyed by id (in insertion
 * order), an append-only list of feedback responses, and the per-article
 * scores and global statistics computed over them.
 */
module Feedback {
  import opened Common
  import opened Stats

  const DefaultWeight: real := 1.0

  /** The name under which the weighted score is stored next to the per-criterion averages. */
  const Overall: string := "overall"

  /** One entry `{"<value>": "<label>"}` of a rating scale, its key read as an integer. */
  datatype ScalePoint = ScalePoint(value: int, text: string)

  datatype Criterion = Criterion(
    id: string,
    name: string,
    description: string,
    scale: seq<ScalePoint>,
    weight: real)

  /** A submission; `ratings` maps criterion ids to ratings and `timestamp` is an instant. */
  datatype Response = Response(
    id: string,
    articleId: string,
    evaluatorId: string,
    timestamp: int,
    ratings: map<string, int>,
    comments: string,
    metadata: Metadata)

  /** The exceptions the store raises: ValueError, KeyError, ValueError and ZeroDivisionError. */
  datatype FeedbackError =
    | MissingRatings(criteria: set<string>)
    | UnknownCriterion(criterionId: string)
    | InvalidRating(criterionId: string, rating: int)
    | ZeroTotalWeight

  /** The ids of registered criteria that a submission gives no rating for. */
  function MissingCriteria(criteria: map<string, Criterion>, ratings: map<string, int>): (missing: set<string>)
    ensures forall id :: id in missing <==> id in criteria && id !in ratings
  {
    criteria.Keys - ratings.Keys
  }

  /** `[int(k) for each entry {k: label} of scale]`: the integer keys of the scale's entries, in order. */
  function AllowedValues(scale: seq<ScalePoint>): (values: seq<int>)
    ensures |values| == |scale|
  {
    seq(|scale|, i requires 0 <= i < |scale| => scale[i].value)
  }

  /** A rating is allowed exactly when some entry of the scale has it as its key. */
  lemma AllowedValuesOnScale(scale: seq<ScalePoint>, rating: int)
    ensures rating in AllowedValues(scale) <==> exists p <- scale :: p.value == rating
  {
    var values := AllowedValues(scale);
    if rating in values {
      var i :| 0 <= i < |values| && values[i] == rating;
      assert scale[i] in scale;
    }
    if p :| p in scale && p.value == rating {
      var i :| 0 <= i < |scale| && scale[i] == p;
      assert values[i] == rating;
    }
  }

  /** `rating` is given for a registered criterion and lies on that criterion's scale. */
  predicate RatingOk(criteria: map<string, Criterion>, criterionId: string, rating: int)
  {
    criterionId in criteria && rating in AllowedValues(criteria[criterionId].scale)
  }

  /** Every rating names a registered criterion and lies on its scale. */
  predicate RatingsOnScale(criteria: map<string, Criterion>, ratings: map<string, int>)
  {
    forall id | id in ratings :: RatingOk(criteria, id, ratings[id])
  }

  /** Registering a new criterion keeps every stored rating valid. */
  lemma RatingsOnScaleGrow(criteria: map<string, Criterion>, ratings: map<string, int>, freshId: string, c: Criterion)
    requires freshId !in criteria
    requires RatingsOnScale(criteria, ratings)
    ensures RatingsOnScale(criteria[freshId := c], ratings)
  {
    forall id | id in ratings ensures RatingOk(criteria[freshId := c], id, ratings[id]) {
      assert RatingOk(criteria, id, ratings[id]);
    }
  }

  /** A submission the store accepts: every criterion rated, every rating known and on its scale. */
  predicate Acceptable(criteria: map<string, Criterion>, ratings: map<string, int>)
    ensures Acceptable(criteria, ratings) ==> ratings.Keys == criteria.Keys
  {
    MissingCriteria(criteria, ratings) == {} && RatingsOnScale(criteria, ratings)
  }

  /** An error naming a rating that fails the check: an unknown criterion or an off-scale value. */
  predicate Offending(criteria: map<string, Criterion>, ratings: map<string, int>, e: FeedbackError)
    ensures Offending(criteria, ratings, e) ==> !Acceptable(criteria, ratings)
  {
    match e
    case UnknownCriterion(id) => id in ratings && id !in criteria
    case InvalidRating(id, rating) =>
      id in ratings && id in criteria && rating == ratings[id] && !RatingOk(criteria, id, rating)
    case _ => false
  }

  /*
   * The rating check as written: `[int(v) for v in criterion.scale]` converts
   * each scale ENTRY, which is a dictionary; `int` of a dictionary raises
   * TypeError, so the list can only be built for an empty scale, and then it
   * is empty.
   */

  /** The allowed values as written: None where building the list raises TypeError. */
  function AsWrittenAllowedValues(scale: seq<ScalePoint>): (values: Option<seq<int>>)
    ensures values.Some? <==> scale == []
    ensures values.Some? ==> values.value == []
  {
    if scale == [] then Some([]) else None
  }

  /** The submissions the check as written lets through. */
  predicate AsWrittenAcceptable(criteria: map<string, Criterion>, ratings: map<string, int>)
  {
    && MissingCriteria(criteria, ratings) == {}
    && forall id | id in ratings ::
         && id in criteria
         && AsWrittenAllowedValues(criteria[id].scale).Some?
         && ratings[id] in AsWrittenAllowedValues(criteria[id].scale).value
  }

  /** As written, a submission is accepted only when there are no criteria and no ratings at all. */
  lemma AsWrittenAcceptsNothing(criteria: map<string, Criterion>, ratings: map<string, int>)
    ensures AsWrittenAcceptable(criteria, ratings) <==> criteria == map[] && ratings == map[]
  {
    if AsWrittenAcceptable(criteria, ratings) {
      if id :| id in ratings {
        assert false;
      }
      assert ratings.Keys == {};
      if id :| id in criteria {
        assert false;
      }
    }
  }

  /** The submission of the record-feedback test: one criterion on the scale 1, 3, 5 rated 5. */
  lemma AsWrittenRejectsTestSubmission()
    ensures var c := Criterion("c", "Content Quality", "Evaluate the quality of the content",
                               [ScalePoint(1, "Poor"), ScalePoint(3, "Average"), ScalePoint(5, "Excellent")],
                               DefaultWeight);
            var criteria, ratings := map["c" := c], map["c" := 5];
            Acceptable(criteria, ratings) && !AsWrittenAcceptable(criteria, ratings)
  {
    var c := Criterion("c", "Content Quality", "Evaluate the quality of the content",
                       [ScalePoint(1, "Poor"), ScalePoint(3, "Average"), ScalePoint(5, "Excellent")],
                       DefaultWeight);
    var criteria, ratings := map["c" := c], map["c" := 5];
    assert AllowedValues(c.scale)[2] == 5;
    assert RatingOk(criteria, "c", 5);
    AsWrittenAcceptsNothing(criteria, ratings);
  }

  /** `get_article_feedback`: the responses about `articleId`, in the order they were recorded. */
  function ArticleFeedback(responses: seq<Response>, articleId: string): (rs: seq<Response>)
    ensures |rs| <= |responses|
    ensures forall r <- rs :: r in responses && r.articleId == articleId
    ensures forall r <- responses :: r.articleId == articleId ==> r in rs
  {
    Filter(responses, (r: Response) => r.articleId == articleId)
  }

  /** `get_evaluator_feedback`: the responses by `evaluatorId`, in the order they were recorded. */
  function EvaluatorFeedback(responses: seq<Response>, evaluatorId: string): (rs: seq<Response>)
    ensures |rs| <= |responses|
    ensures forall r <- rs :: r in responses && r.evaluatorId == evaluatorId
    ensures forall r <- responses :: r.evaluatorId == evaluatorId ==> r in rs
  {
    Filter(responses, (r: Response) => r.evaluatorId == evaluatorId)
  }

  /** A recorded response joins its article's feedback after every earlier one. */
  lemma ArticleFeedbackAfterRecord(responses: seq<Response>, response: Response, articleId: string)
    ensures ArticleFeedback(responses + [response], articleId) ==
      ArticleFeedback(responses, articleId) + if response.articleId == articleId then [response] else []
  {
    FilterConcat(responses, [response], (r: Response) => r.articleId == articleId);
    FilterSingleton(response, (r: Response) => r.articleId == articleId);
  }

  /** A recorded response joins its evaluator's feedback after every earlier one. */
  lemma EvaluatorFeedbackAfterRecord(responses: seq<Response>, response: Response, evaluatorId: string)
    ensures EvaluatorFeedback(responses + [response], evaluatorId) ==
      EvaluatorFeedback(responses, evaluatorId) + if response.evaluatorId == evaluatorId then [response] else []
  {
    FilterConcat(responses, [response], (r: Response) => r.evaluatorId == evaluatorId);
    FilterSingleton(response, (r: Response) => r.evaluatorId == evaluatorId);
  }

  /** The ratings given for one criterion, in response order, skipping responses without one. */
  function RatingsOf(responses: seq<Response>, criterionId: string): (xs: seq<int>)
    ensures |xs| <= |responses|
    ensures xs == [] <==> forall r <- responses :: criterionId !in r.ratings
  {
    if responses == [] then []
    else
      var r := responses[|responses| - 1];
      assert forall x <- responses[..|responses| - 1] :: x in responses;
      RatingsOf(responses[..|responses| - 1], criterionId) + if criterionId in r.ratings then [r.ratings[criterionId]] else []
  }

  /** Every rating of a criterion is one of the values some response gives it. */
  lemma {:induction false} RatingsOfGiven(responses: seq<Response>, criterionId: string)
    ensures forall x <- RatingsOf(responses, criterionId) ::
      exists r <- responses :: criterionId in r.ratings && r.ratings[criterionId] == x
  {
    if responses != [] {
      var init := responses[..|responses| - 1];
      RatingsOfGiven(init, criterionId);
      assert forall r <- init :: r in responses;
    }
  }

  /**
   * The loop shared by both queries: for each criterion, in insertion order,
   * that has ratings, store `summarise(ratings)` under the criterion's NAME;
   * a later criterion with the same name overwrites an earlier one.
   */
  function PerCriterion<T>(
    ids: seq<string>, criteria: map<string, Criterion>, responses: seq<Response>, summarise: seq<int> -> T)
    : map<string, T>
    requires forall id <- ids :: id in criteria
  {
    if ids == [] then map[]
    else
      var n := |ids| - 1;
      assert forall id <- ids[..n] :: id in ids;
      var m := PerCriterion(ids[..n], criteria, responses, summarise);
      var ratings := RatingsOf(responses, ids[n]);
      if ratings == [] then m else m[criteria[ids[n]].name := summarise(ratings)]
  }

  /** Nothing is stored exactly when no criterion has ratings. */
  lemma {:induction false} PerCriterionEmpty<T>(
    ids: seq<string>, criteria: map<string, Criterion>, responses: seq<Response>, summarise: seq<int> -> T)
    requires forall id <- ids :: id in criteria
    ensures PerCriterion(ids, criteria, responses, summarise) == map[] <==> forall id <- ids :: RatingsOf(responses, id) == []
  {
    if ids != [] {
      var n := |ids| - 1;
      assert forall id <- ids[..n] :: id in ids;
      PerCriterionEmpty(ids[..n], criteria, responses, summarise);
      assert ids == ids[..n] + [ids[n]];
      var ratings := RatingsOf(responses, ids[n]);
      if ratings != [] {
        var name := criteria[ids[n]].name;
        assert name in PerCriterion(ids, criteria, responses, summarise);
      }
    }
  }

  /** One more criterion of the loop adds its summary under its name, when it has ratings. */
  lemma PerCriterionStep<T>(
    ids: seq<string>, i: nat, criteria: map<string, Criterion>, responses: seq<Response>, summarise: seq<int> -> T)
    requires forall id <- ids :: id in criteria
    requires i < |ids|
    ensures forall id <- ids[..i] :: id in criteria
    ensures forall id <- ids[..i + 1] :: id in criteria
    ensures RatingsOf(responses, ids[i]) == [] ==>
      PerCriterion(ids[..i + 1], criteria, responses, summarise) == PerCriterion(ids[..i], criteria, responses, summarise)
    ensures RatingsOf(responses, ids[i]) != [] ==>
      PerCriterion(ids[..i + 1], criteria, responses, summarise)
      == PerCriterion(ids[..i], criteria, responses, summarise)[criteria[ids[i]].name := summarise(RatingsOf(responses, ids[i]))]
  {
    assert forall id <- ids[..i + 1] :: id in ids;
    assert ids[..i + 1][..i] == ids[..i];
  }

  /** Position i of `ids` is a criterion named `name` with ratings that `summarise` maps to `v`. */
  ghost predicate SummaryAt<T>(
    ids: seq<string>, criteria: map<string, Criterion>, responses: seq<Response>, summarise: seq<int> -> T,
    i: int, name: string, v: T)
  {
    && 0 <= i < |ids| && ids[i] in criteria && criteria[ids[i]].name == name
    && RatingsOf(responses, ids[i]) != [] && v == summarise(RatingsOf(responses, ids[i]))
  }

  /** Every stored name belongs to a rated criterion whose summary is stored under it. */
  lemma {:induction false} PerCriterionEntries<T>(
    ids: seq<string>, criteria: map<string, Criterion>, responses: seq<Response>, summarise: seq<int> -> T)
    requires forall id <- ids :: id in criteria
    ensures forall name | name in PerCriterion(ids, criteria, responses, summarise) ::
      exists i :: SummaryAt(ids, criteria, responses, summarise, i, name, PerCriterion(ids, criteria, responses, summarise)[name])
  {
    if ids != [] {
      var n := |ids| - 1;
      var init := ids[..n];
      assert forall id <- init :: id in ids;
      PerCriterionEntries(init, criteria, responses, summarise);
      var prev := PerCriterion(init, criteria, responses, summarise);
      var m := PerCriterion(ids, criteria, responses, summarise);
      var ratings := RatingsOf(responses, ids[n]);
      forall name <- m.Keys ensures exists i :: SummaryAt(ids, criteria, responses, summarise, i, name, m[name]) {
        if ratings != [] && name == criteria[ids[n]].name {
          assert SummaryAt(ids, criteria, responses, summarise, n, name, m[name]);
        } else {
          assert name in prev.Keys && m[name] == prev[name];
              var i :| SummaryAt(init, criteria, responses, summarise, i, name, prev[name]);
          assert ids[i] == init[i];
          assert SummaryAt(ids, criteria, responses, summarise, i, name, m[name]);
        }
      }
    }
  }

  /** Every rated criterion's name is stored. */
  lemma {:induction false} PerCriterionComplete<T>(
    ids: seq<string>, criteria: map<string, Criterion>, responses: seq<Response>, summarise: seq<int> -> T)
    requires forall id <- ids :: id in criteria
    ensures forall i | 0 <= i < |ids| && RatingsOf(responses, ids[i]) != [] ::
      criteria[ids[i]].name in PerCriterion(ids, criteria, responses, summarise)
  {
    if ids != [] {
      var n := |ids| - 1;
      var init := ids[..n];
      assert forall id <- init :: id in ids;
      PerCriterionComplete(init, criteria, responses, summarise);
      var m := PerCriterion(ids, criteria, responses, summarise);
      forall i | 0 <= i < |ids| && RatingsOf(responses, ids[i]) != [] ensures criteria[ids[i]].name in m {
        if i < n {
          assert init[i] == ids[i];
        }
      }
    }
  }

  /** A name other than the last criterion's keeps what the earlier criteria stored under it. */
  lemma PerCriterionOther<T>(
    ids: seq<string>, criteria: map<string, Criterion>, responses: seq<Response>, summarise: seq<int> -> T, name: string)
    requires forall id <- ids :: id in criteria
    requires ids != [] && name != criteria[ids[|ids| - 1]].name
    ensures forall id <- ids[..|ids| - 1] :: id in criteria
    ensures name in PerCriterion(ids, criteria, responses, summarise)
       <==> name in PerCriterion(ids[..|ids| - 1], criteria, responses, summarise)
    ensures name in PerCriterion(ids[..|ids| - 1], criteria, responses, summarise) ==>
      PerCriterion(ids, criteria, responses, summarise)[name]
      == PerCriterion(ids[..|ids| - 1], criteria, responses, summarise)[name]
  {
    assert forall id <- ids[..|ids| - 1] :: id in ids;
  }

  /** The last criterion, when rated, has its own summary stored under its name. */
  lemma PerCriterionLast<T>(
    ids: seq<string>, criteria: map<string, Criterion>, responses: seq<Response>, summarise: seq<int> -> T)
    requires forall id <- ids :: id in criteria
    requires ids != [] && RatingsOf(responses, ids[|ids| - 1]) != []
    ensures criteria[ids[|ids| - 1]].name in PerCriterion(ids, criteria, responses, summarise)
    ensures PerCriterion(ids, criteria, responses, summarise)[criteria[ids[|ids| - 1]].name]
         == summarise(RatingsOf(responses, ids[|ids| - 1]))
  {
  }

  /**
   * When no later criterion shares its name, the name of rated criterion
   * `ids[i]` maps to that criterion's own summary (with distinct names, every
   * rated criterion's does).
   */
  lemma {:induction false} PerCriterionDistinctNames<T>(
    ids: seq<string>, criteria: map<string, Criterion>, responses: seq<Response>, summarise: seq<int> -> T, i: nat)
    requires forall id <- ids :: id in criteria
    requires i < |ids| && RatingsOf(responses, ids[i]) != []
    requires forall k | i < k < |ids| :: criteria[ids[k]].name != criteria[ids[i]].name
    ensures criteria[ids[i]].name in PerCriterion(ids, criteria, responses, summarise)
    ensures PerCriterion(ids, criteria, responses, summarise)[criteria[ids[i]].name]
         == summarise(RatingsOf(responses, ids[i]))
  {
    if i < |ids| - 1 {
      PerCriterionOther(ids, criteria, responses, summarise, criteria[ids[i]].name);
      var init := ids[..|ids| - 1];
      assert init[i] == ids[i];
      assert forall k | i < k < |init| :: init[k] == ids[k];
      PerCriterionDistinctNames(init, criteria, responses, summarise, i);
    } else {
      PerCriterionLast(ids, criteria, responses, summarise);
    }
  }


  /** `sum(ratings) / len(ratings)`; it is only applied to criteria with ratings. */
  function Average(ratings: seq<int>): real
  {
    if ratings == [] then 0.0 else IntMean(ratings)
  }

  /** The per-criterion averages of `calculate_article_score`, keyed by criterion name. */
  function AverageScores(ids: seq<string>, criteria: map<string, Criterion>, responses: seq<Response>)
    : (scores: map<string, real>)
    requires forall id <- ids :: id in criteria
    ensures scores == map[] <==> forall id <- ids :: RatingsOf(responses, id) == []
  {
    PerCriterionEmpty(ids, criteria, responses, Average);
    PerCriterion(ids, criteria, responses, Average)
  }

  /**
   * Position i of `ids` is a criterion named `name` whose ratings average to
   * `score`, and `score` lies between the smallest and the largest of them.
   */
  ghost predicate AverageWithin(ids: seq<string>, criteria: map<string, Criterion>, responses: seq<Response>,
                          i: int, name: string, score: real)
  {
    && SummaryAt(ids, criteria, responses, Average, i, name, score)
    && score == IntMean(RatingsOf(responses, ids[i]))
    && Least(RatingsOf(responses, ids[i])) as real <= score <= Greatest(RatingsOf(responses, ids[i])) as real
  }

  /**
   * Each stored average is the average of the ratings of a criterion bearing
   * that name, and lies between the smallest and the largest of them.
   */
  lemma AverageScoresWithinRatings(ids: seq<string>, criteria: map<string, Criterion>, responses: seq<Response>)
    requires forall id <- ids :: id in criteria
    ensures forall name | name in AverageScores(ids, criteria, responses) ::
      exists i :: AverageWithin(ids, criteria, responses, i, name, AverageScores(ids, criteria, responses)[name])
  {
    var scores := AverageScores(ids, criteria, responses);
    PerCriterionEntries(ids, criteria, responses, Average);
    forall name <- scores.Keys ensures exists i :: AverageWithin(ids, criteria, responses, i, name, scores[name]) {
      var i :| SummaryAt(ids, criteria, responses, Average, i, name, scores[name]);
      IntMeanBetween(RatingsOf(responses, ids[i]));
      assert AverageWithin(ids, criteria, responses, i, name, scores[name]);
    }
  }

  /** `sum(c.weight for c in self.criteria.values())`. */
  function TotalWeight(ids: seq<string>, criteria: map<string, Criterion>): real
    requires forall id <- ids :: id in criteria
  {
    if ids == [] then 0.0
    else
      assert forall id <- ids[..|ids| - 1] :: id in ids;
      TotalWeight(ids[..|ids| - 1], criteria) + criteria[ids[|ids| - 1]].weight
  }

  /** `sum(scores[c.name] * c.weight for c in self.criteria.values() if c.name in scores)`. */
  function WeightedSum(ids: seq<string>, criteria: map<string, Criterion>, scores: map<string, real>): real
    requires forall id <- ids :: id in criteria
  {
    if ids == [] then 0.0
    else
      assert forall id <- ids[..|ids| - 1] :: id in ids;
      var c := criteria[ids[|ids| - 1]];
      WeightedSum(ids[..|ids| - 1], criteria, scores) + if c.name in scores then scores[c.name] * c.weight else 0.0
  }

  /** With non-negative weights, the total weight is non-negative and at least each criterion's weight. */
  lemma {:induction false} TotalWeightBounds(ids: seq<string>, criteria: map<string, Criterion>)
    requires forall id <- ids :: id in criteria && criteria[id].weight >= 0.0
    ensures 0.0 <= TotalWeight(ids, criteria)
    ensures forall id <- ids :: criteria[id].weight <= TotalWeight(ids, criteria)
  {
    if ids != [] {
      var n := |ids| - 1;
      forall id <- ids[..n] ensures id in criteria && criteria[id].weight >= 0.0 {
        assert id in ids;
      }
      TotalWeightBounds(ids[..n], criteria);
      assert ids == ids[..n] + [ids[n]];
    }
  }

  /** Criteria whose name has no average contribute nothing to the weighted sum. */
  lemma {:induction false} WeightedSumUnscored(ids: seq<string>, criteria: map<string, Criterion>, scores: map<string, real>)
    requires forall id <- ids :: id in criteria && criteria[id].name !in scores
    ensures WeightedSum(ids, criteria, scores) == 0.0
  {
    if ids != [] {
      var n := |ids| - 1;
      forall id <- ids[..n] ensures id in criteria && criteria[id].name !in scores {
        assert id in ids;
      }
      WeightedSumUnscored(ids[..n], criteria, scores);
    }
  }

  /** `sum` lies between `lo` and `hi` times `weight`. */
  predicate ScaledBetween(lo: real, hi: real, weight: real, sum: real)
  {
    lo * weight <= sum <= hi * weight
  }

  /**
   * With non-negative weights and every criterion's name scored within
   * [lo, hi], the weighted sum lies between lo and hi times the total weight.
   */
  lemma {:induction false} WeightedSumBetween(
    ids: seq<string>, criteria: map<string, Criterion>, scores: map<string, real>, lo: real, hi: real)
    requires forall id <- ids :: id in criteria && criteria[id].weight >= 0.0 && criteria[id].name in scores
    requires forall name <- scores.Keys :: lo <= scores[name] <= hi
    ensures ScaledBetween(lo, hi, TotalWeight(ids, criteria), WeightedSum(ids, criteria, scores))
  {
    if ids == [] {
      assert ScaledBetween(lo, hi, 0.0, 0.0);
    } else {
      var n := |ids| - 1;
      forall id <- ids[..n] ensures id in criteria && criteria[id].weight >= 0.0 && criteria[id].name in scores {
        assert id in ids;
      }
      WeightedSumBetween(ids[..n], criteria, scores, lo, hi);
      var c := criteria[ids[n]];
      assert ids[n] in ids;
      StepBetween(lo, hi, TotalWeight(ids[..n], criteria), WeightedSum(ids[..n], criteria, scores), c.weight, scores[c.name]);
    }
  }

  /** Adding a term x * w with w >= 0 and x in [lo, hi] keeps a sum within lo and hi times its weight. */
  lemma StepBetween(lo: real, hi: real, tw: real, ws: real, w: real, x: real)
    requires ScaledBetween(lo, hi, tw, ws)
    requires w >= 0.0 && lo <= x <= hi
    ensures ScaledBetween(lo, hi, tw + w, ws + x * w)
  {
    assert (x - lo) * w >= 0.0;
    assert (hi - x) * w >= 0.0;
  }


  /**
   * `calculate_article_score` over an article's responses: empty without
   * responses; otherwise the averages and, when some criterion was rated,
   * the weighted sum divided by the weight of ALL criteria under "overall".
   */
  function ArticleScore(ids: seq<string>, criteria: map<string, Criterion>, responses: seq<Response>)
    : (r: Result<map<string, real>, FeedbackError>)
    requires forall id <- ids :: id in criteria
    ensures responses == [] ==> r == Success(map[])
    ensures r.Failure? <==> responses != [] && AverageScores(ids, criteria, responses) != map[]
                            && TotalWeight(ids, criteria) == 0.0
    ensures r.Failure? ==> r.error == ZeroTotalWeight
    ensures r.Success? && responses != [] ==>
      && (forall name <- AverageScores(ids, criteria, responses).Keys :: name != Overall ==>
            name in r.value && r.value[name] == AverageScores(ids, criteria, responses)[name])
      && (Overall in r.value <==> AverageScores(ids, criteria, responses) != map[])
    ensures r.Success? && responses != [] ==>
      r.value.Keys == AverageScores(ids, criteria, responses).Keys
                      + (if AverageScores(ids, criteria, responses) == map[] then {} else {Overall})
  {
    if responses == [] then Success(map[])
    else
      var scores := AverageScores(ids, criteria, responses);
      if scores == map[] then Success(scores)
      else if TotalWeight(ids, criteria) == 0.0 then Failure(ZeroTotalWeight)
      else Success(scores[Overall := WeightedSum(ids, criteria, scores) / TotalWeight(ids, criteria)])
  }

  /**
   * With non-negative weights and every criterion rated, the overall score is
   * a weighted mean: it lies within [lo, hi] whenever every average does.
   */
  lemma OverallWithinAverages(
    ids: seq<string>, criteria: map<string, Criterion>, responses: seq<Response>, lo: real, hi: real)
    requires forall id <- ids :: id in criteria && criteria[id].weight >= 0.0
    requires forall id <- ids :: RatingsOf(responses, id) != []
    requires TotalWeight(ids, criteria) != 0.0
    requires forall name | name in AverageScores(ids, criteria, responses) ::
      lo <= AverageScores(ids, criteria, responses)[name] <= hi
    ensures var r := ArticleScore(ids, criteria, responses);
      r.Success? && (Overall in r.value ==> lo <= r.value[Overall] <= hi)
  {
    var scores := AverageScores(ids, criteria, responses);
    if responses != [] && scores != map[] {
      PerCriterionComplete(ids, criteria, responses, Average);
      forall id <- ids ensures criteria[id].name in scores {
        var i :| 0 <= i < |ids| && ids[i] == id;
      }
      OverallBetween(ids, criteria, scores, lo, hi);
    }
  }

  /** With non-negative weights and every criterion's name scored within [lo, hi], so is the weighted mean. */
  lemma OverallBetween(ids: seq<string>, criteria: map<string, Criterion>, scores: map<string, real>, lo: real, hi: real)
    requires forall id <- ids :: id in criteria && criteria[id].weight >= 0.0 && criteria[id].name in scores
    requires forall name <- scores.Keys :: lo <= scores[name] <= hi
    requires TotalWeight(ids, criteria) != 0.0
    ensures lo <= WeightedSum(ids, criteria, scores) / TotalWeight(ids, criteria) <= hi
  {
    WeightedSumBetween(ids, criteria, scores, lo, hi);
    NonNegativeTotal(ids, criteria);
    ScaledQuotient(lo, hi, TotalWeight(ids, criteria), WeightedSum(ids, criteria, scores));
  }

  lemma ScaledQuotient(lo: real, hi: real, weight: real, sum: real)
    requires ScaledBetween(lo, hi, weight, sum) && weight > 0.0
    ensures lo <= sum / weight <= hi
  {
    QuotientBetween(sum, weight, lo, hi);
  }


  lemma {:induction false} NonNegativeTotal(ids: seq<string>, criteria: map<string, Criterion>)
    requires forall id <- ids :: id in criteria && criteria[id].weight >= 0.0
    ensures TotalWeight(ids, criteria) >= 0.0
  {
    if ids != [] {
      assert forall id <- ids[..|ids| - 1] :: id in ids;
      NonNegativeTotal(ids[..|ids| - 1], criteria);
      assert ids[|ids| - 1] in ids;
    }
  }

  /** The criteria of the article-score test: Quality (weight 2) and Structure (weight 1). */
  function ScoreExampleCriteria(): map<string, Criterion>
  {
    var scale := [ScalePoint(1, "Poor"), ScalePoint(5, "Excellent")];
    map["q" := Criterion("q", "Quality", "Content quality", scale, 2.0),
        "s" := Criterion("s", "Structure", "Article structure", scale, 1.0)]
  }

  /** The responses of the article-score test: Quality 4 and 5, Structure 5 and 4. */
  function ScoreExampleResponses(): seq<Response>
  {
    [ Response("r1", "test_article", "evaluator1", 1, map["q" := 4, "s" := 5], "", map[]),
      Response("r2", "test_article", "evaluator2", 2, map["q" := 5, "s" := 4], "", map[]) ]
  }

  /** Both responses of a pair rate the criterion: its ratings are theirs, in order. */
  lemma RatingsOfPair(a: Response, b: Response, criterionId: string)
    requires criterionId in a.ratings && criterionId in b.ratings
    ensures RatingsOf([a, b], criterionId) == [a.ratings[criterionId], b.ratings[criterionId]]
  {
    RatingsOfSnoc([], a, criterionId);
    RatingsOfSnoc([a], b, criterionId);
    assert [] + [a] == [a] && [a] + [b] == [a, b];
  }

  /** Both responses of a pair are about the article: its feedback is the pair. */
  lemma ArticleFeedbackOfPair(a: Response, b: Response, articleId: string)
    requires a.articleId == articleId && b.articleId == articleId
    ensures ArticleFeedback([a, b], articleId) == [a, b]
  {
    ArticleFeedbackAfterRecord([], a, articleId);
    ArticleFeedbackAfterRecord([a], b, articleId);
    assert [] + [a] == [a] && [a] + [b] == [a, b];
  }

  lemma ScoreExampleRatings()
    ensures ArticleFeedback(ScoreExampleResponses(), "test_article") == ScoreExampleResponses()
    ensures RatingsOf(ScoreExampleResponses(), "q") == [4, 5]
    ensures RatingsOf(ScoreExampleResponses(), "s") == [5, 4]
  {
    var rs := ScoreExampleResponses();
    assert rs == [rs[0], rs[1]];
    ArticleFeedbackOfPair(rs[0], rs[1], "test_article");
    RatingsOfPair(rs[0], rs[1], "q");
    RatingsOfPair(rs[0], rs[1], "s");
  }

  lemma ScoreExampleMeans()
    ensures IntMean([4, 5]) == 4.5 && IntMean([5, 4]) == 4.5
  {
    IntMeanOfPair(4, 5);
    IntMeanOfPair(5, 4);
  }


  lemma ScoreExampleAverages()
    ensures AverageScores(["q", "s"], ScoreExampleCriteria(), ScoreExampleResponses())
      == map["Quality" := 4.5, "Structure" := 4.5]
  {
    var criteria, rs := ScoreExampleCriteria(), ScoreExampleResponses();
    ScoreExampleRatings();
    ScoreExampleMeans();
    assert ["q", "s"][..1] == ["q"] && ["q"][..0] == [];
    assert PerCriterion([], criteria, rs, Average) == map[];
    assert PerCriterion(["q"], criteria, rs, Average) == map["Quality" := 4.5];
  }

  /** Quality rated 4 and 5 (weight 2), Structure 5 and 4 (weight 1): both averages and overall are 4.5. */
  lemma ArticleScoreExample()
    ensures ArticleScore(["q", "s"], ScoreExampleCriteria(), ArticleFeedback(ScoreExampleResponses(), "test_article"))
      == Success(map["Quality" := 4.5, "Structure" := 4.5, Overall := 4.5])
  {
    var ids, criteria, rs := ["q", "s"], ScoreExampleCriteria(), ScoreExampleResponses();
    ScoreExampleRatings();
    ScoreExampleAverages();
    var scores := map["Quality" := 4.5, "Structure" := 4.5];
    assert ids[..1] == ["q"] && ["q"][..0] == [];
    assert TotalWeight(ids, criteria) == 3.0;
    assert WeightedSum(ids, criteria, scores) == 13.5;
  }

  /** One response for the article that rates Quality 4 and predates the Structure criterion. */
  function PartialExampleResponses(): seq<Response>
  {
    [Response("r1", "test_article", "evaluator1", 1, map["q" := 4], "", map[])]
  }

  lemma PartialExampleAverages()
    ensures AverageScores(["q", "s"], ScoreExampleCriteria(), PartialExampleResponses()) == map["Quality" := 4.0]
  {
    var criteria, rs := ScoreExampleCriteria(), PartialExampleResponses();
    RatingsOfSnoc([], rs[0], "q");
    RatingsOfSnoc([], rs[0], "s");
    assert [] + [rs[0]] == rs;
    IntSumSnoc([], 4);
    assert [] + [4] == [4];
    assert Sum(AsReals([])) == 0.0;
    assert Average(RatingsOf(rs, "q")) == 4.0;
    assert ["q", "s"][..1] == ["q"] && ["q"][..0] == [];
    assert PerCriterion(["q"], criteria, rs, Average) == map["Quality" := 4.0];
  }

  /**
   * The overall score divides by the weight of every registered criterion,
   * rated or not: with Quality 4 (weight 2) and Structure unrated (weight 1)
   * it is 8 / 3, below the only average there is.
   */
  lemma UnratedWeightLowersOverall()
    ensures ArticleScore(["q", "s"], ScoreExampleCriteria(), PartialExampleResponses())
      == Success(map["Quality" := 4.0, Overall := 8.0 / 3.0])
  {
    var ids, criteria := ["q", "s"], ScoreExampleCriteria();
    PartialExampleAverages();
    var scores := map["Quality" := 4.0];
    assert ids[..1] == ["q"] && ["q"][..0] == [];
    assert TotalWeight(ids, criteria) == 3.0;
    assert "Structure" !in scores;
    assert WeightedSum(ids, criteria, scores) == 8.0;
  }

  /** `count`, `mean`, `min` and `max` of one criterion's ratings. */
  datatype CriterionStats = CriterionStats(count: nat, mean: real, min: int, max: int)

  datatype TimeRange = TimeRange(start: int, end: int)

  /** The non-empty result of `get_feedback_stats`. */
  datatype FeedbackStats = FeedbackStats(
    totalResponses: nat,
    uniqueArticles: nat,
    uniqueEvaluators: nat,
    criteriaStats: map<string, CriterionStats>,
    timeRange: TimeRange)

  /** The statistics of a list of ratings; it is only applied to criteria with ratings. */
  function RatingStats(xs: seq<int>): (s: CriterionStats)
    ensures s.count == |xs|
    ensures |xs| > 0 ==> s.min in xs && s.max in xs
    ensures forall x <- xs :: s.min <= x <= s.max
    ensures |xs| > 0 ==> s.min as real <= s.mean <= s.max as real && s.mean == IntMean(xs)
  {
    if xs == [] then CriterionStats(0, 0.0, 0, 0)
    else
      IntMeanBetween(xs);
      CriterionStats(|xs|, IntMean(xs), Least(xs), Greatest(xs))
  }

  /** The per-criterion statistics of `get_feedback_stats`, keyed by criterion name. */
  function CriteriaStats(ids: seq<string>, criteria: map<string, Criterion>, responses: seq<Response>)
    : (stats: map<string, CriterionStats>)
    requires forall id <- ids :: id in criteria
    ensures stats == map[] <==> forall id <- ids :: RatingsOf(responses, id) == []
  {
    PerCriterionEmpty(ids, criteria, responses, RatingStats);
    PerCriterion(ids, criteria, responses, RatingStats)
  }

  /**
   * `r.timestamp for r in self.responses`, in recording order: the instants
   * the time range is taken over (the experiment store has its own over trials).
   */
  function Timestamps(responses: seq<Response>): (ts: seq<int>)
    ensures |ts| == |responses|
    ensures forall i | 0 <= i < |responses| :: ts[i] == responses[i].timestamp
  {
    seq(|responses|, i requires 0 <= i < |responses| => responses[i].timestamp)
  }

  /** `{r.article_id for r in responses}` */
  function Articles(responses: seq<Response>): set<string>
  {
    set x <- responses :: x.articleId
  }

  /** `{r.evaluator_id for r in responses}` */
  function Evaluators(responses: seq<Response>): set<string>
  {
    set x <- responses :: x.evaluatorId
  }

  /** There are never more distinct articles, or evaluators, than responses. */
  lemma {:induction false} DistinctCountsAtMostTotal(responses: seq<Response>)
    ensures |Articles(responses)| <= |responses|
    ensures |Evaluators(responses)| <= |responses|
  {
    if responses != [] {
      var init, last := responses[..|responses| - 1], responses[|responses| - 1];
      DistinctCountsAtMostTotal(init);
      assert responses == init + [last];
      assert Articles(responses) == Articles(init) + {last.articleId};
      assert Evaluators(responses) == Evaluators(init) + {last.evaluatorId};
    }
  }

  /** `get_feedback_stats`: None (the empty dictionary) when nothing was recorded. */
  function StatsOf(ids: seq<string>, criteria: map<string, Criterion>, responses: seq<Response>)
    : (r: Option<FeedbackStats>)
    requires forall id <- ids :: id in criteria
    ensures r.None? <==> responses == []
    ensures r.Some? ==>
      && r.value.totalResponses == |responses|
      && r.value.uniqueArticles == |Articles(responses)| <= |responses|
      && r.value.uniqueEvaluators == |Evaluators(responses)| <= |responses|
      && (forall x <- responses :: r.value.timeRange.start <= x.timestamp <= r.value.timeRange.end)
      && (exists x <- responses :: x.timestamp == r.value.timeRange.start)
      && (exists x <- responses :: x.timestamp == r.value.timeRange.end)
      && r.value.criteriaStats == CriteriaStats(ids, criteria, responses)
  {
    if responses == [] then None
    else
      DistinctCountsAtMostTotal(responses);
      var ts := Timestamps(responses);
      var start, end := Least(ts), Greatest(ts);
      assert forall x <- responses :: x.timestamp in ts;
      Some(FeedbackStats(
        |responses|,
        |Articles(responses)|,
        |Evaluators(responses)|,
        CriteriaStats(ids, criteria, responses),
        TimeRange(start, end)))
  }

  /** The criterion of the statistics test: Quality on the scale 1 to 5. */
  function StatsExampleCriterion(): map<string, Criterion>
  {
    map["q" := Criterion("q", "Quality", "Content quality", [ScalePoint(1, "Poor"), ScalePoint(5, "Excellent")], DefaultWeight)]
  }

  /** The responses of the statistics test: five articles rated 1 to 5 by two alternating evaluators. */
  function StatsExampleResponses(): seq<Response>
  {
    [ Response("r0", "article_0", "evaluator_0", 0, map["q" := 1], "", map[]),
      Response("r1", "article_1", "evaluator_1", 1, map["q" := 2], "", map[]),
      Response("r2", "article_2", "evaluator_0", 2, map["q" := 3], "", map[]),
      Response("r3", "article_3", "evaluator_1", 3, map["q" := 4], "", map[]),
      Response("r4", "article_4", "evaluator_0", 4, map["q" := 5], "", map[]) ]
  }

  /** Appending a response extends a criterion's ratings by the one it gives, if any. */
  lemma RatingsOfSnoc(responses: seq<Response>, response: Response, criterionId: string)
    ensures RatingsOf(responses + [response], criterionId) ==
      RatingsOf(responses, criterionId) + if criterionId in response.ratings then [response.ratings[criterionId]] else []
  {
    assert (responses + [response])[..|responses|] == responses;
  }

  /** Five responses that all rate the criterion: its ratings are theirs, in order. */
  lemma RatingsOfFive(a: Response, b: Response, c: Response, d: Response, e: Response, criterionId: string)
    requires criterionId in a.ratings && criterionId in b.ratings && criterionId in c.ratings
    requires criterionId in d.ratings && criterionId in e.ratings
    ensures RatingsOf([a, b, c, d, e], criterionId)
         == [a.ratings[criterionId], b.ratings[criterionId], c.ratings[criterionId],
             d.ratings[criterionId], e.ratings[criterionId]]
  {
    RatingsOfPair(a, b, criterionId);
    RatingsOfSnoc([a, b], c, criterionId);
    assert [a, b] + [c] == [a, b, c];
    RatingsOfSnoc([a, b, c], d, criterionId);
    assert [a, b, c] + [d] == [a, b, c, d];
    RatingsOfSnoc([a, b, c, d], e, criterionId);
    assert [a, b, c, d] + [e] == [a, b, c, d, e];
  }

  lemma StatsExampleRatings()
    ensures RatingsOf(StatsExampleResponses(), "q") == [1, 2, 3, 4, 5]
  {
    var rs := StatsExampleResponses();
    assert rs == [rs[0], rs[1], rs[2], rs[3], rs[4]];
    RatingsOfFive(rs[0], rs[1], rs[2], rs[3], rs[4], "q");
  }

  lemma StatsExampleRatingStats()
    ensures RatingStats([1, 2, 3, 4, 5]) == CriterionStats(5, 3.0, 1, 5)
  {
    var xs := [1, 2, 3, 4, 5];
    assert AsReals(xs) == [1.0, 2.0, 3.0, 4.0, 5.0];
    SumSnoc([], 1.0);
    assert [] + [1.0] == [1.0];
    SumSnoc([1.0], 2.0);
    assert [1.0] + [2.0] == [1.0, 2.0];
    SumSnoc([1.0, 2.0], 3.0);
    assert [1.0, 2.0] + [3.0] == [1.0, 2.0, 3.0];
    SumSnoc([1.0, 2.0, 3.0], 4.0);
    assert [1.0, 2.0, 3.0] + [4.0] == [1.0, 2.0, 3.0, 4.0];
    SumSnoc([1.0, 2.0, 3.0, 4.0], 5.0);
    assert [1.0, 2.0, 3.0, 4.0] + [5.0] == [1.0, 2.0, 3.0, 4.0, 5.0];
    assert Least(xs) in xs && 1 in xs;
    assert Greatest(xs) in xs && 5 in xs;
  }

  lemma StatsExampleArticles()
    ensures Articles(StatsExampleResponses()) == {"article_0", "article_1", "article_2", "article_3", "article_4"}
  {
    var rs := StatsExampleResponses();
    assert rs == [rs[0], rs[1], rs[2], rs[3], rs[4]];
  }

  lemma StatsExampleEvaluators()
    ensures Evaluators(StatsExampleResponses()) == {"evaluator_0", "evaluator_1"}
  {
    var rs := StatsExampleResponses();
    assert rs == [rs[0], rs[1], rs[2], rs[3], rs[4]];
  }

  /** Five pairwise different values make a set of five. */
  lemma FiveDistinct(a: string, b: string, c: string, d: string, e: string)
    requires a != b && a != c && a != d && a != e && b != c && b != d && b != e && c != d && c != e && d != e
    ensures |{a, b, c, d, e}| == 5
  {
    assert |{a} + {b}| == 2;
    assert |{a, b} + {c}| == 3;
    assert |{a, b, c} + {d}| == 4;
    assert |{a, b, c, d} + {e}| == 5;
  }

  lemma StatsExampleCounts()
    ensures |Articles(StatsExampleResponses())| == 5
    ensures |Evaluators(StatsExampleResponses())| == 2
  {
    StatsExampleArticles();
    StatsExampleEvaluators();
    assert "evaluator_0" != "evaluator_1";
    assert "article_0" != "article_1" && "article_0" != "article_2" && "article_0" != "article_3";
    assert "article_0" != "article_4" && "article_1" != "article_2" && "article_1" != "article_3";
    assert "article_1" != "article_4" && "article_2" != "article_3" && "article_2" != "article_4";
    assert "article_3" != "article_4";
    FiveDistinct("article_0", "article_1", "article_2", "article_3", "article_4");
  }

  lemma StatsExampleCriteria()
    ensures CriteriaStats(["q"], StatsExampleCriterion(), StatsExampleResponses())
      == map["Quality" := CriterionStats(5, 3.0, 1, 5)]
  {
    var criteria, rs := StatsExampleCriterion(), StatsExampleResponses();
    StatsExampleRatings();
    StatsExampleRatingStats();
    assert ["q"][..0] == [];
    assert PerCriterion([], criteria, rs, RatingStats) == map[];
    assert PerCriterion(["q"], criteria, rs, RatingStats) == map["Quality" := RatingStats([1, 2, 3, 4, 5])];
  }

  lemma StatsExampleTimeRange()
    ensures Least(Timestamps(StatsExampleResponses())) == 0
    ensures Greatest(Timestamps(StatsExampleResponses())) == 4
  {
    var ts := Timestamps(StatsExampleResponses());
    assert ts == [0, 1, 2, 3, 4];
    assert Least(ts) in ts && 0 in ts;
    assert Greatest(ts) in ts && 4 in ts;
  }

  /**
   * Five responses rating one criterion 1 to 5, for five articles, from two
   * evaluators: 5 responses, 5 articles, 2 evaluators, a mean of 3, minimum 1
   * and maximum 5.
   */
  lemma StatsExample()
    ensures StatsOf(["q"], StatsExampleCriterion(), StatsExampleResponses())
      == Some(FeedbackStats(5, 5, 2, map["Quality" := CriterionStats(5, 3.0, 1, 5)], TimeRange(0, 4)))
  {
    StatsExampleCriteria();
    StatsExampleTimeRange();
    StatsExampleCounts();
  }

  class FeedbackManager {
    /** The keys of `criteria` in insertion order (Python dictionaries keep it). */
    var order: seq<string>
    var criteria: map<string, Criterion>
    var responses: seq<Response>

    ghost predicate Valid()
      reads this
    {
      && Distinct(order)
      && (forall id :: id in criteria <==> id in order)
      && (forall id | id in criteria :: criteria[id].id == id)
      && (forall r <- responses :: forall id | id in r.ratings :: RatingOk(criteria, id, r.ratings[id]))
      && (forall i, j | 0 <= i < j < |responses| :: responses[i].id != responses[j].id)
    }

    /** A manager with no stored data: no criteria and no responses. */
    constructor()
      ensures Valid()
      ensures order == [] && criteria == map[] && responses == []
    {
      order := [];
      criteria := map[];
      responses := [];
    }

    /** Registers a criterion under the fresh id `freshId` and returns that id. */
    method AddCriterion(
      freshId: string, name: string, description: string, scale: seq<ScalePoint>,
      weight: real := DefaultWeight)
      returns (criterionId: string)
      requires Valid()
      requires freshId !in criteria
      modifies this
      ensures Valid()
      ensures criterionId == freshId && criterionId !in old(criteria)
      ensures criteria == old(criteria)[criterionId := Criterion(criterionId, name, description, scale, weight)]
      ensures order == old(order) + [criterionId]
      ensures responses == old(responses)
    {
      criterionId := freshId;
      criteria := criteria[criterionId := Criterion(criterionId, name, description, scale, weight)];
      order := order + [criterionId];
    }

    /**
     * Appends a response unless some criterion is left unrated or some rating
     * names an unknown criterion or lies off its criterion's scale. Which of
     * several offending ratings is reported depends on the dictionary's order
     * and is left open.
     */
    method RecordFeedback(
      freshId: string, now: int, articleId: string, evaluatorId: string, ratings: map<string, int>,
      comments: string := "", metadata: Option<Metadata> := None)
      returns (r: Result<string, FeedbackError>)
      requires Valid()
      requires forall x <- responses :: x.id != freshId
      modifies this
      ensures Valid()
      ensures criteria == old(criteria) && order == old(order)
      ensures r.Failure? <==> !Acceptable(criteria, ratings)
      ensures MissingCriteria(criteria, ratings) != {} ==> r == Failure(MissingRatings(MissingCriteria(criteria, ratings)))
      ensures MissingCriteria(criteria, ratings) == {} && r.Failure? ==> Offending(criteria, ratings, r.error)
      ensures r.Failure? ==> responses == old(responses)
      ensures r.Success? ==>
        && r.value == freshId
        && responses == old(responses) + [Response(freshId, articleId, evaluatorId, now, ratings, comments, OrEmpty(metadata))]
    {
      var missing := MissingCriteria(criteria, ratings);
      if missing != {} {
        return Failure(MissingRatings(missing));
      }
      var unchecked := ratings.Keys;
      while unchecked != {}
        invariant unchecked <= ratings.Keys
        invariant forall id | id in ratings && id !in unchecked :: RatingOk(criteria, id, ratings[id])
        decreases unchecked
      {
        var id :| id in unchecked;
        if id !in criteria {
          return Failure(UnknownCriterion(id));
        }
        var validValues := AllowedValues(criteria[id].scale);
        if ratings[id] !in validValues {
          return Failure(InvalidRating(id, ratings[id]));
        }
        unchecked := unchecked - {id};
      }
      var response := Response(freshId, articleId, evaluatorId, now, ratings, comments, OrEmpty(metadata));
      responses := responses + [response];
      r := Success(response.id);
    }

    /** `calculate_article_score` for `articleId`, computed criterion by criterion. */
    method CalculateArticleScore(articleId: string) returns (r: Result<map<string, real>, FeedbackError>)
      requires Valid()
      ensures r == ArticleScore(order, criteria, ArticleFeedback(responses, articleId))
    {
      var rs := ArticleFeedback(responses, articleId);
      if rs == [] {
        return Success(map[]);
      }
      var scores := map[];
      var totalWeight := TotalWeight(order, criteria);
      for i := 0 to |order|
        invariant scores == AverageScores(order[..i], criteria, rs)
      {
        PerCriterionStep(order, i, criteria, rs, Average);
        var criterion := criteria[order[i]];
        var ratings := RatingsOf(rs, order[i]);
        if ratings != [] {
          scores := scores[criterion.name := IntMean(ratings)];
        }
      }
      assert order[..|order|] == order;
      if scores != map[] {
        var weightedSum := WeightedSum(order, criteria, scores);
        if totalWeight == 0.0 {
          return Failure(ZeroTotalWeight);
        }
        scores := scores[Overall := weightedSum / totalWeight];
      }
      r := Success(scores);
    }

    /** `get_feedback_stats`, with the per-criterion statistics computed criterion by criterion. */
    method GetFeedbackStats() returns (r: Option<FeedbackStats>)
      requires Valid()
      ensures r == StatsOf(order, criteria, responses)
    {
      if responses == [] {
        return None;
      }
      var criteriaStats := map[];
      for i := 0 to |order|
        invariant criteriaStats == CriteriaStats(order[..i], criteria, responses)
      {
        PerCriterionStep(order, i, criteria, responses, RatingStats);
        var criterion := criteria[order[i]];
        var ratings := RatingsOf(responses, order[i]);
        if ratings != [] {
          criteriaStats := criteriaStats[criterion.name := RatingStats(ratings)];
        }
      }
      assert order[..|order|] == order;
      var ts := Timestamps(responses);
      r := Some(FeedbackStats(
        |responses|,
        |Articles(responses)|,
        |Evaluators(responses)|,
        criteriaStats,
        TimeRange(Least(ts), Greatest(ts))));
    }
  }
}
