/**
 * fire_analysis_pipeline: computes the voltage ratio, takes the image-derived
 * signals and the quantum score from their collaborators, classifies the tier
 * and assembles the result record.
 */
module Pipeline {
  import opened Wrappers
  import opened Risk

  /** The form data the GUI collects (the `data` dictionary). */
  datatype AnalysisInput = AnalysisInput(
    address: string,
    room: string,
    appliance: string,
    burnSmell: string,
    symptoms: string,
    voltages: seq<real>,
    photo: string,
    area: string)

  datatype Prompts = Prompts(stage1: string, stage2: string, stage3: string)

  /** The dictionary fire_analysis_pipeline returns. */
  datatype AnalysisResult = AnalysisResult(
    tier: Tier,
    quantumScore: real,
    brightness: real,
    voltRatio: real,
    mechvec: seq<real>,
    monthsAhead: int,
    prompts: Prompts,
    raw: AnalysisInput)

  /**
   * The foreign code the analyzer calls, as opaque functions: the grey-scale
   * mean brightness of the photo (divided by 255), the 25-bin hue vector of
   * the area image, the quantum circuit's score of that vector, and the three
   * prompt builders.
   */
  datatype Collaborators = Collaborators(
    brightness: string -> real,
    colorVector: string -> seq<real>,
    quantumScore: seq<real> -> real,
    stage1: (AnalysisInput, real, real, real, seq<real>, int) -> string,
    stage2: (string, real) -> string,
    stage3: (string, real, int) -> string)

  function Analyze(data: AnalysisInput, forecastMonths: int, c: Collaborators): (r: Result<AnalysisResult, RatioError>)
  {
    match VoltageRatio(data.voltages)
    case Failure(e) => Failure(e)
    case Success(ratio) =>
      var brightness := c.brightness(data.photo);
      var vector := c.colorVector(data.area);
      var qscore := c.quantumScore(vector);
      var tier := Classify(data.symptoms, data.burnSmell, brightness, ratio);
      Success(AnalysisResult(
        tier, qscore, brightness, ratio, vector, forecastMonths,
        Prompts(
          c.stage1(data, brightness, ratio, qscore, vector, forecastMonths),
          c.stage2(TierName(tier), qscore),
          c.stage3(TierName(tier), qscore, forecastMonths)),
        data))
  }

  /**
   * The analysis fails exactly when there are voltages and the first is zero;
   * otherwise each field of the record is the value the rules computed or the
   * input it was handed, unchanged.
   */
  lemma AnalyzeRecord(data: AnalysisInput, forecastMonths: int, c: Collaborators)
    ensures var r := Analyze(data, forecastMonths, c);
      && (r.Failure? <==> data.voltages != [] && data.voltages[0] == 0.0)
      && (r.Success? ==>
            && r.value.voltRatio == VoltageRatio(data.voltages).value
            && r.value.brightness == c.brightness(data.photo)
            && r.value.mechvec == c.colorVector(data.area)
            && r.value.quantumScore == c.quantumScore(r.value.mechvec)
            && r.value.tier == Classify(data.symptoms, data.burnSmell, r.value.brightness, r.value.voltRatio)
            && r.value.monthsAhead == forecastMonths
            && r.value.raw == data
            && r.value.prompts.stage1 == c.stage1(data, r.value.brightness, r.value.voltRatio,
                                                   r.value.quantumScore, r.value.mechvec, forecastMonths)
            && r.value.prompts.stage2 == c.stage2(TierName(r.value.tier), r.value.quantumScore)
            && r.value.prompts.stage3 == c.stage3(TierName(r.value.tier), r.value.quantumScore, forecastMonths))
  {
  }

  /** With no readings the ratio is 1.0, so only rules 1, 2 and 4 can decide. */
  lemma NoVoltagesMeansUnitRatio(data: AnalysisInput, forecastMonths: int, c: Collaborators)
    requires data.voltages == []
    ensures Analyze(data, forecastMonths, c).Success?
    ensures var r := Analyze(data, forecastMonths, c).value;
      r.voltRatio == 1.0 && (r.tier == Electrical <==> BurnReported(data.symptoms, data.burnSmell))
  {
    ClassifyCharacterised(data.symptoms, data.burnSmell, c.brightness(data.photo), 1.0);
  }

  /** A burn smell makes every successful analysis Electrical, whatever the images show. */
  lemma BurnSmellRecordIsElectrical(data: AnalysisInput, forecastMonths: int, c: Collaborators)
    requires data.burnSmell == "yes"
    requires Analyze(data, forecastMonths, c).Success?
    ensures Analyze(data, forecastMonths, c).value.tier == Electrical
  {
  }

  /**
   * A supply that sags below three quarters of its first reading, in a bright
   * photo with no burn reported, is Electrical.
   */
  lemma SaggingSupplyIsElectrical(data: AnalysisInput, forecastMonths: int, c: Collaborators, k: nat)
    requires k < |data.voltages| && data.voltages[0] > 0.0
    requires data.voltages[k] < 0.75 * data.voltages[0]
    requires c.brightness(data.photo) >= 0.3
    ensures Analyze(data, forecastMonths, c).Success?
    ensures Analyze(data, forecastMonths, c).value.tier == Electrical
  {
    var ratio := VoltageRatio(data.voltages).value;
    assert ratio <= data.voltages[k] / data.voltages[0];
    assert data.voltages[k] / data.voltages[0] < 0.75;
  }
}
