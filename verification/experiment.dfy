/**
 * The A/B experiment store of article_generation/experimentation/experiment.py:
 * an Experiment owns the prompt variants under test (a dictionary keyed by
 * variant id, kept here as a map plus the keys in insertion order) and an
 * append-only list of trials, each carrying one value per declared metric.
 * The store compares every variant against a caller-chosen control variant
 * and picks the variant with the highest mean for a metric.
 *
 * Fresh ids (`uuid.uuid4()`) and the clock (`datetime.now()`) are parameters.
 * The p-value of the two-sample t-test is a parameter too: `significant`
 * answers `p_value < 0.05` for the control samples and a variant's samples.
 */
module Experiments {
  import opened Common
  import opened Stats

  const DefaultTemperature: real := 0.7
  const DefaultMaxTokens: int := 4096

  datatype Variant = Variant(
    id: string,
    name: string,
    promptTemplate: string,
    model: string,
    temperature: real,
    maxTokens: int,
    metadata: Metadata)

  datatype Trial = Trial(
    id: string,
    variantId: string,
    timestamp: int,
    title: string,
    keywords: seq<string>,
    metrics: map<string, real>,
    evaluation: Metadata,
    metadata: Metadata)

  /** The exceptions the store raises. */
  datatype ExperimentError =
    | MissingMetrics(missing: set<string>)   // record_trial: a declared metric has no value
    | UnknownMetric(metric: string)          // analyze_results: the metric is not declared
    | NoControlData                          // analyze_results: the control variant has no trials
    | UnknownVariant(variantId: string)      // KeyError on `self.variants[...]`
    | MissingMetricValue(metric: string)     // KeyError on `t.metrics[metric]`

  /** `set(declared) - set(given.keys())`: the declared metrics a trial lacks. */
  function MissingMetricNames(declared: seq<string>, given: map<string, real>): (missing: set<string>)
    ensures forall m <- missing :: m in declared && m !in given
    ensures forall m <- declared :: m !in given ==> m in missing
  {
    (set m <- declared) - given.Keys
  }

  predicate HasMetrics(t: Trial, declared: seq<string>)
  {
    forall m <- declared :: m in t.metrics
  }

  /** Every trial of the variant has a value for the metric, so the lookups below cannot fail. */
  predicate Carries(trials: seq<Trial>, variantId: string, metric: string)
  {
    forall t <- trials :: t.variantId == variantId ==> metric in t.metrics
  }

  predicate AllCarry(trials: seq<Trial>, metric: string)
  {
    forall t <- trials :: metric in t.metrics
  }

  /** The trials recorded for one variant, in recording order. */
  function TrialsOf(trials: seq<Trial>, variantId: string): seq<Trial>
  {
    Filter(trials, (t: Trial) => t.variantId == variantId)
  }

  /** `[t.metrics[metric] for t in trials if t.variant_id == variant_id]` */
  function Samples(trials: seq<Trial>, variantId: string, metric: string): (xs: seq<real>)
    requires Carries(trials, variantId, metric)
    ensures |xs| <= |trials|
    ensures xs == [] <==> forall t <- trials :: t.variantId != variantId
  {
    if trials == [] then []
    else
      var init, last := trials[..|trials| - 1], trials[|trials| - 1];
      assert trials == init + [last];
      Samples(init, variantId, metric) + (if last.variantId == variantId then [last.metrics[metric]] else [])
  }

  /** The samples of a variant are the metric values of its trials, one per trial, in order. */
  lemma {:induction false} SamplesOfTrials(trials: seq<Trial>, variantId: string, metric: string)
    requires Carries(trials, variantId, metric)
    ensures |Samples(trials, variantId, metric)| == |TrialsOf(trials, variantId)|
    ensures forall i | 0 <= i < |TrialsOf(trials, variantId)| ::
      metric in TrialsOf(trials, variantId)[i].metrics &&
      Samples(trials, variantId, metric)[i] == TrialsOf(trials, variantId)[i].metrics[metric]
  {
    if trials != [] {
      var init, last := trials[..|trials| - 1], trials[|trials| - 1];
      assert trials == init + [last];
      SamplesOfTrials(init, variantId, metric);
    }
  }

  /** Recording a trial adds its value to its own variant's samples and to no other's. */
  lemma SamplesAfterAppend(trials: seq<Trial>, t: Trial, variantId: string, metric: string)
    requires Carries(trials + [t], variantId, metric)
    ensures Carries(trials, variantId, metric)
    ensures Samples(trials + [t], variantId, metric) ==
      Samples(trials, variantId, metric) + (if t.variantId == variantId then [t.metrics[metric]] else [])
  {
    assert (trials + [t])[..|trials|] == trials;
  }

  /**
   * The relative change of a variant's mean over the control's mean in percent,
   * `((variant_mean / control_mean) - 1) * 100` on numpy floats: a zero control
   * mean gives an infinity or NaN rather than an exception.
   */
  datatype Improvement = Finite(percent: real) | PlusInfinity | MinusInfinity | NotANumber
  {
    /** `v.get("improvement", 0) > 0` */
    predicate IsGain()
    {
      (Finite? && percent > 0.0) || PlusInfinity?
    }
  }

  /**
   * `((variant_mean / control_mean) - 1) * 100` under numpy's float division:
   * a percentage when the control mean is non-zero, otherwise +inf, -inf or
   * NaN by the sign of the variant mean.
   */
  function ImprovementOf(variantMean: real, controlMean: real): (imp: Improvement)
    ensures controlMean != 0.0 ==>
      imp.Finite? && imp.percent * controlMean == (variantMean - controlMean) * 100.0
    ensures controlMean == 0.0 ==>
      && (imp.PlusInfinity? <==> variantMean > 0.0)
      && (imp.MinusInfinity? <==> variantMean < 0.0)
      && (imp.NotANumber? <==> variantMean == 0.0)
  {
    if controlMean != 0.0 then Finite((variantMean / controlMean - 1.0) * 100.0)
    else if variantMean > 0.0 then PlusInfinity
    else if variantMean < 0.0 then MinusInfinity
    else NotANumber
  }

  /** An improvement counts as a gain exactly when the variant's mean beats the control's. */
  lemma ImprovementIsGain(variantMean: real, controlMean: real)
    ensures controlMean > 0.0 ==> (ImprovementOf(variantMean, controlMean).IsGain() <==> variantMean > controlMean)
    ensures controlMean < 0.0 ==> (ImprovementOf(variantMean, controlMean).IsGain() <==> variantMean < controlMean)
    ensures controlMean == 0.0 ==> (ImprovementOf(variantMean, controlMean).IsGain() <==> variantMean > 0.0)
  {
    if controlMean != 0.0 {
      var p := ImprovementOf(variantMean, controlMean).percent;
      if controlMean > 0.0 {
        if p > 0.0 { assert p * controlMean > 0.0; } else { assert p * controlMean <= 0.0; }
      } else {
        if p > 0.0 { assert p * controlMean < 0.0; } else { assert p * controlMean >= 0.0; }
      }
    }
  }

  type Significance = (seq<real>, seq<real>) -> bool

  datatype Comparison = Comparison(significant: bool, improvement: Improvement)

  /** One entry of `results["variants"]`; the control's entry has no comparison. */
  datatype VariantReport = VariantReport(
    variantId: string,
    name: string,
    sampleSize: nat,
    mean: real,
    comparison: Option<Comparison>)

  datatype Summary = Summary(
    totalTrials: nat,
    startDate: int,
    endDate: int,
    significantImprovements: nat)

  datatype Analysis = Analysis(
    metric: string,
    control: string,
    reports: seq<VariantReport>,
    summary: Summary)

  /** The control's own entry: its size and mean, and no comparison. */
  function ControlReport(variants: map<string, Variant>, control: string, controlData: seq<real>): (r: VariantReport)
    requires control in variants && |controlData| > 0
    ensures r.variantId == control && r.name == variants[control].name && r.comparison.None?
    ensures r.sampleSize == |controlData| && r.mean * (|controlData| as real) == Sum(controlData)
  {
    VariantReport(control, variants[control].name, |controlData|, Mean(controlData), None)
  }

  /** The entry of a compared variant: its samples against the control's. */
  function CompareWithControl(
    variants: map<string, Variant>, trials: seq<Trial>, metric: string,
    variantId: string, controlData: seq<real>, significant: Significance): (r: VariantReport)
    requires variantId in variants && AllCarry(trials, metric) && |controlData| > 0
    requires Samples(trials, variantId, metric) != []
    ensures r.variantId == variantId && r.name == variants[variantId].name
    ensures r.sampleSize == |Samples(trials, variantId, metric)|
    ensures r.mean * (r.sampleSize as real) == Sum(Samples(trials, variantId, metric))
    ensures r.comparison.Some?
    ensures r.comparison.value.significant == significant(controlData, Samples(trials, variantId, metric))
    ensures Mean(controlData) > 0.0 ==> (r.comparison.value.improvement.IsGain() <==> r.mean > Mean(controlData))
  {
    var data := Samples(trials, variantId, metric);
    ImprovementIsGain(Mean(data), Mean(controlData));
    VariantReport(variantId, variants[variantId].name, |data|, Mean(data),
      Some(Comparison(significant(controlData, data), ImprovementOf(Mean(data), Mean(controlData)))))
  }

  /** The entries the comparison loop adds, for the variant ids `ids` in dictionary order. */
  function Compared(
    ids: seq<string>, variants: map<string, Variant>, trials: seq<Trial>, metric: string,
    control: string, controlData: seq<real>, significant: Significance): (reports: seq<VariantReport>)
    requires forall id <- ids :: id in variants
    requires AllCarry(trials, metric) && |controlData| > 0
    ensures |reports| <= |ids|
    ensures forall r <- reports :: r.variantId in ids
  {
    if ids == [] then []
    else
      var init, id := ids[..|ids| - 1], ids[|ids| - 1];
      assert forall x <- init :: x in ids;
      Compared(init, variants, trials, metric, control, controlData, significant) +
        if id == control || Samples(trials, id, metric) == [] then []
        else [CompareWithControl(variants, trials, metric, id, controlData, significant)]
  }

  /**
   * The compared entries are exactly the variants other than the control that
   * have trials, each with its own sample size and mean, in dictionary order.
   */
  lemma {:induction false} ComparedEntries(
    ids: seq<string>, variants: map<string, Variant>, trials: seq<Trial>, metric: string,
    control: string, controlData: seq<real>, significant: Significance)
    requires forall id <- ids :: id in variants
    requires AllCarry(trials, metric) && |controlData| > 0
    ensures forall r <- Compared(ids, variants, trials, metric, control, controlData, significant) ::
      && r.variantId in ids && r.variantId != control
      && Samples(trials, r.variantId, metric) != []
      && r == CompareWithControl(variants, trials, metric, r.variantId, controlData, significant)
    ensures forall id <- ids :: id != control && Samples(trials, id, metric) != [] ==>
      exists r <- Compared(ids, variants, trials, metric, control, controlData, significant) :: r.variantId == id
  {
    if ids != [] {
      var init, last := ids[..|ids| - 1], ids[|ids| - 1];
      assert forall x <- init :: x in ids;
      assert ids == init + [last];
      ComparedEntries(init, variants, trials, metric, control, controlData, significant);
      var prev := Compared(init, variants, trials, metric, control, controlData, significant);
      var all := Compared(ids, variants, trials, metric, control, controlData, significant);
      assert forall r <- prev :: r in all;
      forall id <- ids | id != control && Samples(trials, id, metric) != []
        ensures exists r <- all :: r.variantId == id
      {
        if id == last {
          var r := CompareWithControl(variants, trials, metric, id, controlData, significant);
          assert r == all[|all| - 1];
        } else {
          assert id in init;
        }
      }
    }
  }

  /** No two entries of a report list are for the same variant, as in a dictionary keyed by variant id. */
  predicate DistinctVariants(reports: seq<VariantReport>)
  {
    forall i, j | 0 <= i < j < |reports| :: reports[i].variantId != reports[j].variantId
  }

  /** Distinct ids give compared entries for distinct variants. */
  lemma {:induction false} ComparedDistinct(
    ids: seq<string>, variants: map<string, Variant>, trials: seq<Trial>, metric: string,
    control: string, controlData: seq<real>, significant: Significance)
    requires forall id <- ids :: id in variants
    requires Distinct(ids)
    requires AllCarry(trials, metric) && |controlData| > 0
    ensures DistinctVariants(Compared(ids, variants, trials, metric, control, controlData, significant))
  {
    if ids != [] {
      var init, id := ids[..|ids| - 1], ids[|ids| - 1];
      assert forall x <- init :: x in ids;
      ComparedDistinct(init, variants, trials, metric, control, controlData, significant);
      var prev := Compared(init, variants, trials, metric, control, controlData, significant);
      var all := Compared(ids, variants, trials, metric, control, controlData, significant);
      if id != control && Samples(trials, id, metric) != [] {
        assert all == prev + [CompareWithControl(variants, trials, metric, id, controlData, significant)];
        forall i | 0 <= i < |prev| ensures prev[i].variantId != id {
          assert prev[i] in prev;
          var k :| 0 <= k < |init| && init[k] == prev[i].variantId;
          assert ids[k] == init[k];
        }
      }
    }
  }

  /** `sum(1 for v in results["variants"].values() if v.get("significant", False) and v.get("improvement", 0) > 0)` */
  function CountGains(reports: seq<VariantReport>): (n: nat)
    ensures n <= |reports|
    ensures n <= |Filter(reports, (r: VariantReport) => r.comparison.Some?)|
  {
    if reports == [] then 0
    else
      var init, last := reports[..|reports| - 1], reports[|reports| - 1];
      assert reports == init + [last];
      FilterConcat(init, [last], (r: VariantReport) => r.comparison.Some?);
      CountGains(init) +
        if last.comparison.Some? && last.comparison.value.significant && last.comparison.value.improvement.IsGain()
        then 1 else 0
  }

  /** The count of significant improvements never exceeds the number of compared variants. */
  lemma GainsAtMostCompared(control: VariantReport, compared: seq<VariantReport>)
    requires control.comparison.None?
    ensures CountGains([control] + compared) == CountGains(compared) <= |compared|
  {
    CountGainsConcat([control], compared);
    assert [control][..0] == [];
  }

  lemma {:induction false} CountGainsConcat(a: seq<VariantReport>, b: seq<VariantReport>)
    ensures CountGains(a + b) == CountGains(a) + CountGains(b)
    decreases |b|
  {
    if b == [] {
      assert a + b == a;
    } else {
      var b' := b[..|b| - 1];
      assert (a + b)[..|a + b| - 1] == a + b';
      CountGainsConcat(a, b');
    }
  }

  /**
   * `t.timestamp for t in self.trials`, the instants `min` and `max` range
   * over in the summary; the feedback store has its own over responses.
   */
  function Timestamps(trials: seq<Trial>): (ts: seq<int>)
    ensures |ts| == |trials|
    ensures forall i | 0 <= i < |trials| :: ts[i] == trials[i].timestamp
  {
    seq(|trials|, i requires 0 <= i < |trials| => trials[i].timestamp)
  }

  /** `variant_means[variant_id]` when the variant has samples for the metric. */
  function MeanEntry(trials: seq<Trial>, variantId: string, metric: string): (m: Option<real>)
    requires Carries(trials, variantId, metric)
    ensures m.None? <==> Samples(trials, variantId, metric) == []
  {
    var data := Samples(trials, variantId, metric);
    if data == [] then None else Some(Mean(data))
  }

  /** For each variant id in `ids`, the mean of its samples when it has any. */
  function MeanTable(ids: seq<string>, trials: seq<Trial>, metric: string): (table: seq<Option<real>>)
    requires forall id <- ids :: Carries(trials, id, metric)
    ensures |table| == |ids|
    ensures forall i | 0 <= i < |ids| :: table[i] == MeanEntry(trials, ids[i], metric)
  {
    seq(|ids|, i requires 0 <= i < |ids| => MeanEntry(trials, ids[i], metric))
  }

  /** The (id, mean) pairs of the ids that have a mean, in order: `variant_means.items()`. */
  function Present(ids: seq<string>, table: seq<Option<real>>): (means: seq<(string, real)>)
    requires |ids| == |table|
    ensures means == [] <==> forall i | 0 <= i < |table| :: table[i].None?
  {
    if ids == [] then []
    else
      var n := |ids| - 1;
      Present(ids[..n], table[..n]) + if table[n].Some? then [(ids[n], table[n].value)] else []
  }

  /** Appending an id extends the present means by its entry, if it has one. */
  lemma PresentSnoc(ids: seq<string>, table: seq<Option<real>>, id: string, x: Option<real>)
    requires |ids| == |table|
    ensures Present(ids + [id], table + [x]) == Present(ids, table) + if x.Some? then [(id, x.value)] else []
  {
    assert (ids + [id])[..|ids|] == ids;
    assert (table + [x])[..|table|] == table;
  }

  /** No present means: no registered variant has samples. */
  lemma NoneMeansNoSamples(ids: seq<string>, trials: seq<Trial>, metric: string)
    requires forall id <- ids :: Carries(trials, id, metric)
    requires Means(ids, trials, metric) == []
    ensures forall id <- ids :: Samples(trials, id, metric) == []
  {
    var table := MeanTable(ids, trials, metric);
    forall id <- ids ensures Samples(trials, id, metric) == [] {
      var j :| 0 <= j < |ids| && ids[j] == id;
      assert table[j].None?;
    }
  }

  /** `variant_means.items()`: the registered variants that have samples, with their means, in order. */
  function Means(ids: seq<string>, trials: seq<Trial>, metric: string): seq<(string, real)>
    requires forall id <- ids :: Carries(trials, id, metric)
  {
    Present(ids, MeanTable(ids, trials, metric))
  }

  /** Every present pair comes from its position: the id there, and the mean in the table there. */
  lemma {:induction false} PresentEntries(ids: seq<string>, table: seq<Option<real>>)
    requires |ids| == |table|
    ensures forall p <- Present(ids, table) :: exists i | 0 <= i < |ids| :: ids[i] == p.0 && table[i] == Some(p.1)
  {
    if ids != [] {
      var n := |ids| - 1;
      PresentEntries(ids[..n], table[..n]);
      forall p <- Present(ids, table) ensures exists i | 0 <= i < |ids| :: ids[i] == p.0 && table[i] == Some(p.1) {
        if p in Present(ids[..n], table[..n]) {
          var i :| 0 <= i < n && ids[..n][i] == p.0 && table[..n][i] == Some(p.1);
          assert ids[i] == p.0 && table[i] == Some(p.1);
        } else {
          assert ids[n] == p.0 && table[n] == Some(p.1);
        }
      }
    }
  }

  /** Every position with a mean has its pair present. */
  lemma {:induction false} PresentComplete(ids: seq<string>, table: seq<Option<real>>)
    requires |ids| == |table|
    ensures forall i | 0 <= i < |ids| && table[i].Some? :: (ids[i], table[i].value) in Present(ids, table)
  {
    if ids != [] {
      var n := |ids| - 1;
      PresentComplete(ids[..n], table[..n]);
      forall i | 0 <= i < |ids| && table[i].Some? ensures (ids[i], table[i].value) in Present(ids, table) {
        if i < n {
          assert ids[..n][i] == ids[i] && table[..n][i] == table[i];
        }
      }
    }
  }

  /** The means are exactly the registered variants that have samples, each with the mean of its samples. */
  lemma MeansEntries(ids: seq<string>, trials: seq<Trial>, metric: string)
    requires forall id <- ids :: Carries(trials, id, metric)
    ensures forall p <- Means(ids, trials, metric) ::
      p.0 in ids && Samples(trials, p.0, metric) != [] && p.1 == Mean(Samples(trials, p.0, metric))
    ensures forall id <- ids :: Samples(trials, id, metric) != [] ==>
      (id, Mean(Samples(trials, id, metric))) in Means(ids, trials, metric)
  {
    var table := MeanTable(ids, trials, metric);
    PresentEntries(ids, table);
    PresentComplete(ids, table);
    forall id <- ids | Samples(trials, id, metric) != []
      ensures (id, Mean(Samples(trials, id, metric))) in Means(ids, trials, metric)
    {
      var i :| 0 <= i < |ids| && ids[i] == id;
      assert table[i].Some?;
    }
  }

  /** Visiting one more variant adds its mean, when it has samples. */
  lemma MeansSnoc(ids: seq<string>, id: string, trials: seq<Trial>, metric: string)
    requires forall x <- ids :: Carries(trials, x, metric)
    requires Carries(trials, id, metric)
    ensures forall x <- ids + [id] :: Carries(trials, x, metric)
    ensures Means(ids + [id], trials, metric) ==
      Means(ids, trials, metric) + if Samples(trials, id, metric) != [] then [(id, Mean(Samples(trials, id, metric)))] else []
  {
    var table := MeanTable(ids, trials, metric);
    var entry := MeanEntry(trials, id, metric);
    assert MeanTable(ids + [id], trials, metric) == table + [entry];
    PresentSnoc(ids, table, id, entry);
  }

  /** MeansSnoc for the prefixes of `ids` that the loop of `get_best_variant` visits. */
  lemma MeansStep(ids: seq<string>, i: int, trials: seq<Trial>, metric: string)
    requires 0 <= i < |ids|
    requires forall x <- ids[..i] :: Carries(trials, x, metric)
    requires Carries(trials, ids[i], metric)
    ensures forall x <- ids[..i + 1] :: Carries(trials, x, metric)
    ensures Means(ids[..i + 1], trials, metric) ==
      Means(ids[..i], trials, metric) +
        if Samples(trials, ids[i], metric) != [] then [(ids[i], Mean(Samples(trials, ids[i], metric)))] else []
  {
    assert ids[..i + 1] == ids[..i] + [ids[i]];
    MeansSnoc(ids[..i], ids[i], trials, metric);
  }

  /**
   * `max(variant_means.items(), key=lambda x: x[1])`: the index of the first
   * entry whose mean is the largest.
   */
  function FirstMax(means: seq<(string, real)>): (k: nat)
    requires |means| > 0
    ensures k < |means|
    ensures forall i | 0 <= i < |means| :: means[i].1 <= means[k].1
    ensures forall i | 0 <= i < k :: means[i].1 < means[k].1
  {
    if |means| == 1 then 0
    else
      var k := FirstMax(means[..|means| - 1]);
      if means[|means| - 1].1 > means[k].1 then |means| - 1 else k
  }

  /** Position `j` holds a mean that is the largest, and strictly larger than every mean before it. */
  predicate BestAt(table: seq<Option<real>>, j: int)
  {
    && 0 <= j < |table| && table[j].Some?
    && (forall i | 0 <= i < |table| :: table[i].Some? ==> table[i].value <= table[j].value)
    && (forall i | 0 <= i < j :: table[i].Some? ==> table[i].value < table[j].value)
  }

  /**
   * `best` is a registered variant with trials whose mean is at least every
   * other such variant's, and strictly above those registered before it.
   */
  ghost predicate IsBest(ids: seq<string>, trials: seq<Trial>, metric: string, best: string)
    requires forall id <- ids :: Carries(trials, id, metric)
  {
    exists j | 0 <= j < |ids| :: ids[j] == best && BestAt(MeanTable(ids, trials, metric), j)
  }

  /** Position j of `table` holds the first maximum of the present means. */
  predicate PicksFirstMax(ids: seq<string>, table: seq<Option<real>>, j: int)
    requires |ids| == |table| && Present(ids, table) != []
  {
    var means := Present(ids, table);
    var k := FirstMax(means);
    0 <= j < |ids| && ids[j] == means[k].0 && table[j] == Some(means[k].1)
  }

  /** BestAt survives appending a position whose mean (if any) does not exceed the best. */
  lemma BestAtExtend(table: seq<Option<real>>, x: Option<real>, j: int)
    requires BestAt(table, j)
    requires x.Some? ==> x.value <= table[j].value
    ensures BestAt(table + [x], j)
  {
    var t := table + [x];
    forall i | 0 <= i < |t| && t[i].Some? ensures t[i].value <= t[j].value {
      if i < |table| { assert t[i] == table[i]; }
    }
  }

  /** BestAt holds at an appended position whose mean exceeds every earlier one. */
  lemma BestAtNew(table: seq<Option<real>>, v: real)
    requires forall i | 0 <= i < |table| :: table[i].Some? ==> table[i].value < v
    ensures BestAt(table + [Some(v)], |table|)
  {
    var t := table + [Some(v)];
    forall i | 0 <= i < |t| && t[i].Some? ensures t[i].value <= v {
      if i < |table| { assert t[i] == table[i]; }
    }
  }

  /** The first maximum of the present means sits at the best position, ties going to the earlier one. */
  lemma {:induction false} FirstMaxIsBest(ids: seq<string>, table: seq<Option<real>>)
    requires |ids| == |table| && Present(ids, table) != []
    ensures exists j :: PicksFirstMax(ids, table, j) && BestAt(table, j)
  {
    var n := |ids| - 1;
    var ids', table' := ids[..n], table[..n];
    assert ids == ids' + [ids[n]] && table == table' + [table[n]];
    if Present(ids', table') == [] {
      PresentSnoc(ids', table', ids[n], table[n]);
      FirstMaxAlone(ids', table', ids[n], table[n]);
    } else {
      FirstMaxIsBest(ids', table');
      var j :| PicksFirstMax(ids', table', j) && BestAt(table', j);
      FirstMaxStep(ids', table', ids[n], table[n], j);
    }
  }

  /** An entry appended after positions without means is the first maximum. */
  lemma FirstMaxAlone(ids: seq<string>, table: seq<Option<real>>, id: string, x: Option<real>)
    requires |ids| == |table| && Present(ids, table) == [] && x.Some?
    ensures Present(ids + [id], table + [x]) != []
    ensures PicksFirstMax(ids + [id], table + [x], |ids|) && BestAt(table + [x], |ids|)
  {
    PresentSnoc(ids, table, id, x);
    BestAtNew(table, x.value);
  }

  /** Appending an entry keeps the first maximum, or replaces it by the entry when that is strictly larger. */
  lemma FirstMaxStep(ids: seq<string>, table: seq<Option<real>>, id: string, x: Option<real>, j: int)
    requires |ids| == |table| && Present(ids, table) != []
    requires PicksFirstMax(ids, table, j) && BestAt(table, j)
    ensures Present(ids + [id], table + [x]) != []
    ensures exists j' :: PicksFirstMax(ids + [id], table + [x], j') && BestAt(table + [x], j')
  {
    PresentSnoc(ids, table, id, x);
    if x.Some? && x.value > table[j].value {
      FirstMaxNew(ids, table, id, x.value, j);
    } else {
      FirstMaxKept(ids, table, id, x, j);
    }
  }

  /** An appended mean strictly above the first maximum becomes the first maximum. */
  lemma FirstMaxNew(ids: seq<string>, table: seq<Option<real>>, id: string, v: real, j: int)
    requires |ids| == |table| && Present(ids, table) != []
    requires PicksFirstMax(ids, table, j) && BestAt(table, j)
    requires v > table[j].value
    ensures Present(ids + [id], table + [Some(v)]) != []
    ensures PicksFirstMax(ids + [id], table + [Some(v)], |ids|) && BestAt(table + [Some(v)], |ids|)
  {
    var prev := Present(ids, table);
    PresentSnoc(ids, table, id, Some(v));
    var means := Present(ids + [id], table + [Some(v)]);
    assert means == prev + [(id, v)] && means[..|means| - 1] == prev;
    BestAtNew(table, v);
  }

  /** An appended entry without a mean above the first maximum leaves the first maximum where it is. */
  lemma FirstMaxKept(ids: seq<string>, table: seq<Option<real>>, id: string, x: Option<real>, j: int)
    requires |ids| == |table| && Present(ids, table) != []
    requires PicksFirstMax(ids, table, j) && BestAt(table, j)
    requires x.Some? ==> x.value <= table[j].value
    ensures Present(ids + [id], table + [x]) != []
    ensures PicksFirstMax(ids + [id], table + [x], j) && BestAt(table + [x], j)
  {
    var prev := Present(ids, table);
    var k := FirstMax(prev);
    PresentSnoc(ids, table, id, x);
    var means := Present(ids + [id], table + [x]);
    if x.Some? {
      assert means == prev + [(id, x.value)] && means[..|means| - 1] == prev;
      assert FirstMax(means) == k;
    } else {
      assert means == prev;
    }
    assert means[k] == prev[k];
    BestAtExtend(table, x, j);
    assert (ids + [id])[j] == ids[j] && (table + [x])[j] == table[j];
  }



  /**
   * `get_best_variant` once every registered variant's trials carry the
   * metric: the variant `max` picks from the means, or None when no variant
   * has samples.
   */
  function BestVariant(ids: seq<string>, trials: seq<Trial>, metric: string): (best: Option<string>)
    requires forall id <- ids :: Carries(trials, id, metric)
    ensures best.None? <==> Means(ids, trials, metric) == []
  {
    var means := Means(ids, trials, metric);
    if means == [] then None else Some(means[FirstMax(means)].0)
  }

  /**
   * The chosen variant has the largest mean and is the first such; None means
   * that no registered variant has samples.
   */
  lemma BestVariantIsBest(ids: seq<string>, trials: seq<Trial>, metric: string)
    requires forall id <- ids :: Carries(trials, id, metric)
    ensures BestVariant(ids, trials, metric).Some? ==> IsBest(ids, trials, metric, BestVariant(ids, trials, metric).value)
    ensures BestVariant(ids, trials, metric).None? ==> forall id <- ids :: Samples(trials, id, metric) == []
  {
    if BestVariant(ids, trials, metric).Some? {
      var table := MeanTable(ids, trials, metric);
      FirstMaxIsBest(ids, table);
      var j :| PicksFirstMax(ids, table, j) && BestAt(table, j);
    } else {
      NoneMeansNoSamples(ids, trials, metric);
    }
  }

  /** The variants of the best-variant test, registered in this order. */
  function BestExampleVariants(): map<string, Variant>
  {
    map["v1" := Variant("v1", "variant1", "Prompt 1", "claude-3-opus-20240229", DefaultTemperature, DefaultMaxTokens, map[]),
        "v2" := Variant("v2", "variant2", "Prompt 2", "claude-3-opus-20240229", DefaultTemperature, DefaultMaxTokens, map[])]
  }

  /** One trial each: variant1 scores 9, variant2 scores 7. */
  function BestExampleTrials(): seq<Trial>
  {
    [ Trial("t1", "v1", 1, "Article 1", ["test"], map["structure_score" := 9.0, "content_score" := 9.0], map[], map[]),
      Trial("t2", "v2", 2, "Article 2", ["test"], map["structure_score" := 7.0, "content_score" := 7.0], map[], map[]) ]
  }

  lemma BestExampleSamples()
    ensures Samples(BestExampleTrials(), "v1", "structure_score") == [9.0]
    ensures Samples(BestExampleTrials(), "v2", "structure_score") == [7.0]
    ensures Mean([9.0]) == 9.0 && Mean([7.0]) == 7.0
  {
    BestExampleSamplesOf("v1", 9.0);
    BestExampleSamplesOf("v2", 7.0);
    SumSnoc([], 9.0);
    SumSnoc([], 7.0);
    assert [] + [9.0] == [9.0] && [] + [7.0] == [7.0];
  }

  lemma BestExampleSamplesOf(id: string, score: real)
    requires (id, score) == ("v1", 9.0) || (id, score) == ("v2", 7.0)
    ensures Samples(BestExampleTrials(), id, "structure_score") == [score]
  {
    var trials, metric := BestExampleTrials(), "structure_score";
    var t1, t2 := trials[0], trials[1];
    assert [t1] + [t2] == trials;
    SamplesAfterAppend([t1], t2, id, metric);
    assert [] + [t1] == [t1];
    SamplesAfterAppend([], t1, id, metric);
  }

  /**
   * Variant1 with a trial scoring 9 and variant2 with one scoring 7: the only
   * best variant is variant1.
   */
  lemma BestVariantExample()
    ensures MeanTable(["v1", "v2"], BestExampleTrials(), "structure_score") == [Some(9.0), Some(7.0)]
    ensures forall best :: IsBest(["v1", "v2"], BestExampleTrials(), "structure_score", best) <==> best == "v1"
    ensures BestVariant(["v1", "v2"], BestExampleTrials(), "structure_score") == Some("v1")
  {
    var ids, trials, metric := ["v1", "v2"], BestExampleTrials(), "structure_score";
    BestExampleSamples();
    var table := MeanTable(ids, trials, metric);
    assert table == [Some(9.0), Some(7.0)];
    assert BestAt(table, 0);
    assert !BestAt(table, 1);
  }

  /** Every trial of the variant carries the metric in two lists exactly when it does in the two recorded one after the other. */
  lemma CarriesConcat(a: seq<Trial>, b: seq<Trial>, variantId: string, metric: string)
    ensures Carries(a + b, variantId, metric) <==> Carries(a, variantId, metric) && Carries(b, variantId, metric)
  {
    assert forall t <- a + b :: t in a || t in b;
    assert forall t <- a :: t in a + b;
    assert forall t <- b :: t in a + b;
  }

  /** Samples over two trial lists recorded one after the other are the samples of each, in order. */
  lemma {:induction false} SamplesConcat(a: seq<Trial>, b: seq<Trial>, variantId: string, metric: string)
    requires Carries(a, variantId, metric) && Carries(b, variantId, metric)
    ensures Carries(a + b, variantId, metric)
    ensures Samples(a + b, variantId, metric) == Samples(a, variantId, metric) + Samples(b, variantId, metric)
    decreases |b|
  {
    CarriesConcat(a, b, variantId, metric);
    if b == [] {
      assert a + b == a;
    } else {
      var init, last := b[..|b| - 1], b[|b| - 1];
      PrefixAndLast(b);
      CarriesConcat(init, [last], variantId, metric);
      SamplesConcat(a, init, variantId, metric);
      assert a + b == (a + init) + [last];
      SamplesAfterAppend(a + init, last, variantId, metric);
      SamplesAfterAppend(init, last, variantId, metric);
      var added := if last.variantId == variantId then [last.metrics[metric]] else [];
      AppendAssociative(Samples(a, variantId, metric), Samples(init, variantId, metric), added);
    }
  }

  /** One trial a test records: keywords `["test"]` and `score` as both its structure and its content score. */
  function RunTrial(id: string, variantId: string, timestamp: int, title: string, score: real): (t: Trial)
    ensures t.variantId == variantId && "structure_score" in t.metrics && t.metrics["structure_score"] == score
  {
    Trial(id, variantId, timestamp, title, ["test"],
      map["structure_score" := score, "content_score" := score], map[], map[])
  }

  /**
   * The trials a test records for one variant, in order: trial `k` has id
   * `ids[k]`, instant `start + k` and score `scores[k]`.
   */
  function Run(variantId: string, title: string, ids: seq<string>, start: int, scores: seq<real>): (run: seq<Trial>)
    requires |ids| == |scores|
    ensures |run| == |scores|
    ensures forall t <- run :: t.variantId == variantId && "structure_score" in t.metrics
  {
    if scores == [] then []
    else
      var n := |scores| - 1;
      var init := Run(variantId, title, ids[..n], start, scores[..n]);
      var t := RunTrial(ids[n], variantId, start + n, title, scores[n]);
      assert forall x <- init + [t] :: x in init || x == t;
      init + [t]
  }

  /** A run has no samples for any other variant. */
  lemma SamplesOfRunOther(variantId: string, title: string, ids: seq<string>, start: int, scores: seq<real>, other: string)
    requires |ids| == |scores| && other != variantId
    ensures Samples(Run(variantId, title, ids, start, scores), other, "structure_score") == []
  {
  }

  /** A variant's run yields exactly its scores as samples, in order. */
  lemma {:induction false} SamplesOfRun(variantId: string, title: string, ids: seq<string>, start: int, scores: seq<real>)
    requires |ids| == |scores|
    ensures Samples(Run(variantId, title, ids, start, scores), variantId, "structure_score") == scores
  {
    if scores != [] {
      var n := |scores| - 1;
      var init := Run(variantId, title, ids[..n], start, scores[..n]);
      var t := RunTrial(ids[n], variantId, start + n, title, scores[n]);
      SamplesOfRun(variantId, title, ids[..n], start, scores[..n]);
      SamplesAfterAppend(init, t, variantId, "structure_score");
      PrefixAndLast(scores);
    }
  }

  /** The mean of five samples is their sum over five. */
  lemma MeanOfFive(a: real, b: real, c: real, d: real, e: real)
    ensures Mean([a, b, c, d, e]) == (a + b + c + d + e) / 5.0
  {
    SumSnoc([], a);
    SumSnoc([a], b);
    SumSnoc([a, b], c);
    SumSnoc([a, b, c], d);
    SumSnoc([a, b, c, d], e);
    assert [] + [a] == [a] && [a] + [b] == [a, b] && [a, b] + [c] == [a, b, c];
    assert [a, b, c] + [d] == [a, b, c, d] && [a, b, c, d] + [e] == [a, b, c, d, e];
  }

  /** The variants of the analysis test, registered control first. */
  function AnalysisTestVariants(): map<string, Variant>
  {
    map["control" := Variant("control", "control", "Control prompt", "claude-3-opus-20240229",
                             DefaultTemperature, DefaultMaxTokens, map[]),
        "test" := Variant("test", "test", "Test prompt", "claude-3-opus-20240229",
                          DefaultTemperature, DefaultMaxTokens, map[])]
  }

  /** Five control trials scoring 7, 8, 7, 8, 7, then five test trials scoring 8, 9, 8, 9, 8. */
  function AnalysisTestTrials(): seq<Trial>
  {
    Run("control", "Control Article", ["c1", "c2", "c3", "c4", "c5"], 1, [7.0, 8.0, 7.0, 8.0, 7.0]) +
    Run("test", "Test Article", ["t1", "t2", "t3", "t4", "t5"], 6, [8.0, 9.0, 8.0, 9.0, 8.0])
  }

  /** Two runs recorded one after the other, for different variants: each variant's samples are its own scores. */
  lemma SamplesOfTwoRuns(
    v1: string, title1: string, ids1: seq<string>, start1: int, scores1: seq<real>,
    v2: string, title2: string, ids2: seq<string>, start2: int, scores2: seq<real>)
    requires |ids1| == |scores1| && |ids2| == |scores2| && v1 != v2
    ensures AllCarry(Run(v1, title1, ids1, start1, scores1) + Run(v2, title2, ids2, start2, scores2), "structure_score")
    ensures Samples(Run(v1, title1, ids1, start1, scores1) + Run(v2, title2, ids2, start2, scores2), v1, "structure_score")
         == scores1
    ensures Samples(Run(v1, title1, ids1, start1, scores1) + Run(v2, title2, ids2, start2, scores2), v2, "structure_score")
         == scores2
  {
    var c, t := Run(v1, title1, ids1, start1, scores1), Run(v2, title2, ids2, start2, scores2);
    assert forall x <- c + t :: x in c || x in t;
    SamplesOfRun(v1, title1, ids1, start1, scores1);
    SamplesOfRunOther(v1, title1, ids1, start1, scores1, v2);
    SamplesOfRun(v2, title2, ids2, start2, scores2);
    SamplesOfRunOther(v2, title2, ids2, start2, scores2, v1);
    SamplesConcat(c, t, v1, "structure_score");
    SamplesConcat(c, t, v2, "structure_score");
  }

  /** One more variant id adds its compared entry, unless it is the control or has no samples. */
  lemma ComparedSnoc(
    ids: seq<string>, id: string, variants: map<string, Variant>, trials: seq<Trial>, metric: string,
    control: string, controlData: seq<real>, significant: Significance)
    requires forall x <- ids :: x in variants
    requires id in variants && AllCarry(trials, metric) && |controlData| > 0
    ensures forall x <- ids + [id] :: x in variants
    ensures Compared(ids + [id], variants, trials, metric, control, controlData, significant)
         == Compared(ids, variants, trials, metric, control, controlData, significant) +
            if id == control || Samples(trials, id, metric) == [] then []
            else [CompareWithControl(variants, trials, metric, id, controlData, significant)]
  {
    assert forall x <- ids + [id] :: x in ids || x == id;
    assert (ids + [id])[..|ids|] == ids;
  }

  /** With the control registered first and one other variant with samples, that variant is the only one compared. */
  lemma ComparedPair(
    control: string, other: string, variants: map<string, Variant>, trials: seq<Trial>, metric: string,
    controlData: seq<real>, significant: Significance)
    requires control in variants && other in variants && other != control
    requires AllCarry(trials, metric) && |controlData| > 0 && Samples(trials, other, metric) != []
    ensures Compared([control, other], variants, trials, metric, control, controlData, significant)
         == [CompareWithControl(variants, trials, metric, other, controlData, significant)]
  {
    ComparedSnoc([], control, variants, trials, metric, control, controlData, significant);
    ComparedSnoc([control], other, variants, trials, metric, control, controlData, significant);
    assert [] + [control] == [control] && [control] + [other] == [control, other];
  }

  lemma AnalysisTestSamples()
    ensures AllCarry(AnalysisTestTrials(), "structure_score")
    ensures Samples(AnalysisTestTrials(), "control", "structure_score") == [7.0, 8.0, 7.0, 8.0, 7.0]
    ensures Samples(AnalysisTestTrials(), "test", "structure_score") == [8.0, 9.0, 8.0, 9.0, 8.0]
  {
    SamplesOfTwoRuns(
      "control", "Control Article", ["c1", "c2", "c3", "c4", "c5"], 1, [7.0, 8.0, 7.0, 8.0, 7.0],
      "test", "Test Article", ["t1", "t2", "t3", "t4", "t5"], 6, [8.0, 9.0, 8.0, 9.0, 8.0]);
  }

  /**
   * The analysis test: analysed against the control, the report has the
   * control's entry and exactly one compared entry, for the test variant,
   * with five samples and a mean of 8.4 over the control's 7.4, which is a
   * gain; its significance is the t-test's verdict on the two sample lists.
   */
  lemma AnalysisTestExample(significant: Significance)
    ensures AllCarry(AnalysisTestTrials(), "structure_score")
    ensures Compared(["control", "test"], AnalysisTestVariants(), AnalysisTestTrials(), "structure_score",
                     "control", [7.0, 8.0, 7.0, 8.0, 7.0], significant)
      == [VariantReport("test", "test", 5, 8.4,
            Some(Comparison(significant([7.0, 8.0, 7.0, 8.0, 7.0], [8.0, 9.0, 8.0, 9.0, 8.0]), ImprovementOf(8.4, 7.4))))]
    ensures Mean([7.0, 8.0, 7.0, 8.0, 7.0]) == 7.4
    ensures ImprovementOf(8.4, 7.4).IsGain()
  {
    AnalysisTestSamples();
    ComparedPair("control", "test", AnalysisTestVariants(), AnalysisTestTrials(), "structure_score",
      [7.0, 8.0, 7.0, 8.0, 7.0], significant);
    MeanOfFive(7.0, 8.0, 7.0, 8.0, 7.0);
    MeanOfFive(8.0, 9.0, 8.0, 9.0, 8.0);
    ImprovementIsGain(8.4, 7.4);
  }

  /** Besides the control's entry, a single compared entry counts once exactly when it is a significant gain. */
  lemma GainsOfOne(control: VariantReport, r: VariantReport)
    requires control.comparison.None? && r.comparison.Some?
    ensures CountGains([control] + [r])
         == if r.comparison.value.significant && r.comparison.value.improvement.IsGain() then 1 else 0
  {
    GainsAtMostCompared(control, [r]);
    assert [r][..0] == [];
  }

  /** In the analysis test, the summary counts one significant improvement exactly when the t-test says so. */
  lemma AnalysisTestGains(control: VariantReport, significant: Significance)
    requires control.comparison.None?
    ensures CountGains([control] + Compared(["control", "test"], AnalysisTestVariants(), AnalysisTestTrials(),
                                             "structure_score", "control", [7.0, 8.0, 7.0, 8.0, 7.0], significant))
      == if significant([7.0, 8.0, 7.0, 8.0, 7.0], [8.0, 9.0, 8.0, 9.0, 8.0]) then 1 else 0
  {
    AnalysisTestExample(significant);
    GainsOfOne(control, VariantReport("test", "test", 5, 8.4,
      Some(Comparison(significant([7.0, 8.0, 7.0, 8.0, 7.0], [8.0, 9.0, 8.0, 9.0, 8.0]), ImprovementOf(8.4, 7.4)))));
  }

  class Experiment {
    const name: string
    const description: string
    /** The declared metric names every trial must carry. */
    const metrics: seq<string>
    /** The keys of `variants` in insertion order (Python dictionaries keep it). */
    var order: seq<string>
    var variants: map<string, Variant>
    var trials: seq<Trial>

    ghost predicate Valid()
      reads this
    {
      && Distinct(order)
      && (forall id :: id in variants <==> id in order)
      && (forall id | id in variants :: variants[id].id == id)
      && (forall t <- trials :: HasMetrics(t, metrics))
      && (forall i, j | 0 <= i < j < |trials| :: trials[i].id != trials[j].id)
    }

    /** A new experiment with no stored snapshot: no variants and no trials. */
    constructor(name: string, description: string, metrics: seq<string>)
      ensures Valid()
      ensures this.name == name && this.description == description && this.metrics == metrics
      ensures order == [] && variants == map[] && trials == []
    {
      this.name := name;
      this.description := description;
      this.metrics := metrics;
      order := [];
      variants := map[];
      trials := [];
    }

    /** Registers a variant under the fresh id `freshId` and returns that id. */
    method AddVariant(
      freshId: string, name: string, promptTemplate: string, model: string,
      temperature: real := DefaultTemperature, maxTokens: int := DefaultMaxTokens,
      metadata: Option<Metadata> := None)
      returns (variantId: string)
      requires Valid()
      requires freshId !in variants
      modifies this
      ensures Valid()
      ensures variantId == freshId && variantId !in old(variants)
      ensures variants == old(variants)[variantId :=
        Variant(variantId, name, promptTemplate, model, temperature, maxTokens, OrEmpty(metadata))]
      ensures order == old(order) + [variantId]
      ensures trials == old(trials)
    {
      variantId := freshId;
      var variant := Variant(variantId, name, promptTemplate, model, temperature, maxTokens, OrEmpty(metadata));
      variants := variants[variantId := variant];
      order := order + [variantId];
    }

    /**
     * Appends a trial unless a declared metric is missing from `metricValues`;
     * the variant id is not checked against the registered variants.
     */
    method RecordTrial(
      freshId: string, now: int, variantId: string, title: string, keywords: seq<string>,
      metricValues: map<string, real>, evaluation: Metadata, metadata: Option<Metadata> := None)
      returns (r: Result<string, ExperimentError>)
      requires Valid()
      requires forall t <- trials :: t.id != freshId
      modifies this
      ensures Valid()
      ensures variants == old(variants) && order == old(order)
      ensures r.Failure? <==> MissingMetricNames(metrics, metricValues) != {}
      ensures r.Failure? ==>
        r.error == MissingMetrics(MissingMetricNames(metrics, metricValues)) && trials == old(trials)
      ensures r.Success? ==>
        && r.value == freshId
        && trials == old(trials) + [Trial(freshId, variantId, now, title, keywords, metricValues, evaluation, OrEmpty(metadata))]
    {
      var missing := MissingMetricNames(metrics, metricValues);
      if missing != {} {
        return Failure(MissingMetrics(missing));
      }
      var trial := Trial(freshId, variantId, now, title, keywords, metricValues, evaluation, OrEmpty(metadata));
      trials := trials + [trial];
      r := Success(trial.id);
    }

    /**
     * Compares every registered variant that has trials against the control
     * variant for one declared metric.
     */
    method AnalyzeResults(metric: string, control: string, significant: Significance)
      returns (r: Result<Analysis, ExperimentError>)
      requires Valid()
      ensures metric !in metrics ==> r == Failure(UnknownMetric(metric))
      ensures metric in metrics ==> AllCarry(trials, metric)
      ensures metric in metrics && Samples(trials, control, metric) == [] ==> r == Failure(NoControlData)
      ensures metric in metrics && Samples(trials, control, metric) != [] && control !in variants ==>
        r == Failure(UnknownVariant(control))
      ensures r.Success? <==> metric in metrics && Samples(trials, control, metric) != [] && control in variants
      ensures r.Success? ==>
        var controlData := Samples(trials, control, metric);
        var compared := Compared(order, variants, trials, metric, control, controlData, significant);
        && r.value.metric == metric && r.value.control == control
        && r.value.reports == [ControlReport(variants, control, controlData)] + compared
        && r.value.summary == Summary(|trials|, Least(Timestamps(trials)), Greatest(Timestamps(trials)),
                                      CountGains(compared))
    {
      if metric !in metrics {
        return Failure(UnknownMetric(metric));
      }
      var controlData := Samples(trials, control, metric);
      if controlData == [] {
        return Failure(NoControlData);
      }
      if control !in variants {
        return Failure(UnknownVariant(control));
      }
      var reports := [ControlReport(variants, control, controlData)];
      var compared := [];
      for i := 0 to |order|
        invariant compared == Compared(order[..i], variants, trials, metric, control, controlData, significant)
      {
        assert order[..i + 1][..i] == order[..i];
        var variantId := order[i];
        if variantId != control {
          var data := Samples(trials, variantId, metric);
          if data != [] {
            compared := compared + [CompareWithControl(variants, trials, metric, variantId, controlData, significant)];
          }
        }
      }
      assert order[..|order|] == order;
      reports := reports + compared;
      GainsAtMostCompared(reports[0], compared);
      var summary := Summary(|trials|, Least(Timestamps(trials)), Greatest(Timestamps(trials)), CountGains(reports));
      r := Success(Analysis(metric, control, reports, summary));
    }

    /**
     * The id of the registered variant with the highest mean for `metric`, or
     * None when there are no trials or no registered variant has any.
     */
    method GetBestVariant(metric: string) returns (r: Result<Option<string>, ExperimentError>)
      ensures trials == [] ==> r == Success(None)
      ensures trials != [] ==> (r.Failure? <==> exists id <- order :: !Carries(trials, id, metric))
      ensures r.Failure? ==> r.error == MissingMetricValue(metric)
      ensures r.Success? ==> forall id <- order :: Carries(trials, id, metric)
      ensures trials != [] && r.Success? ==> r.value == BestVariant(order, trials, metric)
    {
      if trials == [] {
        return Success(None);
      }
      var means := [];
      for i := 0 to |order|
        invariant forall id <- order[..i] :: Carries(trials, id, metric)
        invariant means == Means(order[..i], trials, metric)
      {
        var variantId := order[i];
        if !Carries(trials, variantId, metric) {
          return Failure(MissingMetricValue(metric));
        }
        var data := Samples(trials, variantId, metric);
        MeansStep(order, i, trials, metric);
        if data != [] {
          means := means + [(variantId, Mean(data))];
        }
      }
      assert order[..|order|] == order;
      if means == [] {
        return Success(None);
      }
      r := Success(Some(means[FirstMax(means)].0));
    }
  }
}
