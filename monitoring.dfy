/**
 * The decisions `generate_monitoring_report` takes before it reads any data:
 * which report presets to run, whether a model path is demanded, and whether
 * predictions are added to the reference and current data.
 */
module Monitoring {
  import opened Options

  datatype Preset = DataDrift | Regression

  /** `model_path: str | Path`: a plain string, or a `pathlib.Path` given by its text. */
  datatype ModelPath = StrPath(text: string) | PathObject(path: string)

  /** The two `ValueError`s raised before any data is read. */
  datatype ReportError = NoPresetSelected | ModelPathRequired

  /** The presets of the report, in order, and whether predictions are added to both datasets. */
  datatype Plan = Plan(presets: seq<Preset>, addPredictions: bool)

  datatype PlanResult = Planned(plan: Plan) | Refused(error: ReportError)

  /** Python truthiness of a model path: an empty string is false, a `Path` object is always true. */
  function Truthy(p: ModelPath): (b: bool)
    ensures p.StrPath? ==> (b <==> |p.text| > 0)
    ensures p.PathObject? ==> b
  {
    match p
    case StrPath(s) => s != ""
    case PathObject(_) => true
  }

  /** The preset list of the if/elif chain; None where it raises. */
  function SelectPresets(dataDrift: bool, regression: bool): (r: Option<seq<Preset>>)
    ensures r.Some? <==> dataDrift || regression
    ensures r.Some? ==> (DataDrift in r.value <==> dataDrift) && (Regression in r.value <==> regression)
    ensures r.Some? ==> |r.value| == (if dataDrift then 1 else 0) + (if regression then 1 else 0)
    ensures r.Some? ==> forall i, j :: 0 <= i < j < |r.value| ==> r.value[i] == DataDrift && r.value[j] == Regression
  {
    if dataDrift && regression then Some([DataDrift, Regression])
    else if dataDrift && !regression then Some([DataDrift])
    else if !dataDrift && regression then Some([Regression])
    else None
  }

  /** The four rows of the decision table. */
  lemma PresetTable()
    ensures SelectPresets(true, true) == Some([DataDrift, Regression])
    ensures SelectPresets(true, false) == Some([DataDrift])
    ensures SelectPresets(false, true) == Some([Regression])
    ensures SelectPresets(false, false) == None
  {
  }

  /**
   * The checks as written: the preset error comes first, then a missing
   * model path is refused when the regression preset is on, and predictions
   * are added when the regression preset is on and the path is truthy.
   */
  function PlanReport(dataDrift: bool, regression: bool, modelPath: Option<ModelPath>): (r: PlanResult)
    ensures r.Refused? <==> !(dataDrift || regression) || (regression && modelPath.None?)
    ensures !(dataDrift || regression) ==> r == Refused(NoPresetSelected)
    ensures (dataDrift || regression) && regression && modelPath.None? ==> r == Refused(ModelPathRequired)
    ensures r.Planned? ==> Some(r.plan.presets) == SelectPresets(dataDrift, regression)
    ensures r.Planned? ==> (r.plan.addPredictions <==> regression && modelPath.Some? && Truthy(modelPath.value))
  {
    match SelectPresets(dataDrift, regression)
    case None => Refused(NoPresetSelected)
    case Some(presets) =>
      if regression && modelPath.None? then Refused(ModelPathRequired)
      else Planned(Plan(presets, regression && modelPath.Some? && Truthy(modelPath.value)))
  }

  /** Predictions are only ever added for a regression report. */
  lemma PredictionsOnlyForRegression(dataDrift: bool, regression: bool, modelPath: Option<ModelPath>)
    requires PlanReport(dataDrift, regression, modelPath).Planned?
    ensures PlanReport(dataDrift, regression, modelPath).plan.addPredictions ==>
      Regression in PlanReport(dataDrift, regression, modelPath).plan.presets
  {
  }

  /**
   * An empty string passes the `is None` check, yet is falsy: the regression
   * preset is planned while no predictions are added.
   */
  lemma EmptyModelPathSkipsPredictions(dataDrift: bool)
    ensures PlanReport(dataDrift, true, Some(StrPath(""))).Planned?
    ensures Regression in PlanReport(dataDrift, true, Some(StrPath(""))).plan.presets
    ensures !PlanReport(dataDrift, true, Some(StrPath(""))).plan.addPredictions
  {
  }

  /** The checks with the model-path guard testing truthiness, as the predictions step does. */
  function PlanReportChecked(dataDrift: bool, regression: bool, modelPath: Option<ModelPath>): (r: PlanResult)
    ensures r.Refused? <==>
      !(dataDrift || regression) || (regression && !(modelPath.Some? && Truthy(modelPath.value)))
    ensures !(dataDrift || regression) ==> r == Refused(NoPresetSelected)
    ensures r.Planned? ==> Some(r.plan.presets) == SelectPresets(dataDrift, regression)
  {
    match SelectPresets(dataDrift, regression)
    case None => Refused(NoPresetSelected)
    case Some(presets) =>
      if regression && !(modelPath.Some? && Truthy(modelPath.value)) then Refused(ModelPathRequired)
      else Planned(Plan(presets, regression && modelPath.Some? && Truthy(modelPath.value)))
  }

  /** With the corrected guard, a regression report always gets its predictions, and only it does. */
  lemma CheckedRegressionHasPredictions(dataDrift: bool, regression: bool, modelPath: Option<ModelPath>)
    requires PlanReportChecked(dataDrift, regression, modelPath).Planned?
    ensures var plan := PlanReportChecked(dataDrift, regression, modelPath).plan;
      Regression in plan.presets <==> plan.addPredictions
  {
  }

  /** The corrected guard agrees with the original wherever the original adds predictions or refuses. */
  lemma CheckedAgreesOtherwise(dataDrift: bool, regression: bool, modelPath: Option<ModelPath>)
    requires !(regression && modelPath == Some(StrPath("")))
    ensures PlanReportChecked(dataDrift, regression, modelPath) == PlanReport(dataDrift, regression, modelPath)
  {
  }
}
