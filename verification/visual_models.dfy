/** What the chart components draw for a chart payload: which component the tag selects,
    how each one reads its (unvalidated) data, and the colour thresholds of scores,
    levels and decisions. Layout, icons and radar geometry are not modelled. */
module VisualModels {
  import opened Wrappers
  import opened Types

  /** The colour families the components choose between. */
  datatype Tone = Emerald | Amber | Rose | Blue | Slate

  /** Good-to-bad order of the three traffic-light tones. */
  function Rank(t: Tone): int {
    match t
    case Rose => 0
    case Amber => 1
    case Emerald => 2
    case _ => -1
  }

  // ---------------------------------------------------------------------------
  // Thresholds

  /** A scoring-table cell: 8 and above is green, 5 and above amber, below that red. */
  function ScoreTone(score: real): (r: Tone)
    ensures r == Emerald <==> score >= 8.0
    ensures r == Amber <==> 5.0 <= score < 8.0
    ensures r == Rose <==> score < 5.0
  {
    if score >= 8.0 then Emerald else if score >= 5.0 then Amber else Rose
  }

  /** The completeness bar: below 50 red, below 80 amber, otherwise green. */
  function CompletenessBarTone(score: real): (r: Tone)
    ensures r == Rose <==> score < 50.0
    ensures r == Amber <==> 50.0 <= score < 80.0
    ensures r == Emerald <==> score >= 80.0
  {
    if score < 50.0 then Rose else if score < 80.0 then Amber else Emerald
  }

  /** The completeness percentage text: below 80 amber, otherwise green. */
  function CompletenessTextTone(score: real): (r: Tone)
    ensures r == Amber <==> score < 80.0
    ensures r == Emerald <==> score >= 80.0
  {
    if score < 80.0 then Amber else Emerald
  }

  /** The radar's overall score: a missing score counts as 0; 75 and above green, 50 and
      above amber, otherwise red. */
  function OverallTone(score: Option<real>): (r: Tone)
    ensures score.None? ==> r == Rose
    ensures score.Some? ==> (r == Emerald <==> score.value >= 75.0)
    ensures score.Some? ==> (r == Rose <==> score.value < 50.0)
  {
    var s := if score.Some? then score.value else 0.0;
    if s >= 75.0 then Emerald else if s >= 50.0 then Amber else Rose
  }

  /** A higher score never gets a worse colour. */
  lemma ScoreToneMonotone(a: real, b: real)
    requires a <= b
    ensures Rank(ScoreTone(a)) <= Rank(ScoreTone(b))
  {
  }

  lemma CompletenessBarMonotone(a: real, b: real)
    requires a <= b
    ensures Rank(CompletenessBarTone(a)) <= Rank(CompletenessBarTone(b))
  {
  }

  lemma OverallToneMonotone(a: real, b: real)
    requires a <= b
    ensures Rank(OverallTone(Some(a))) <= Rank(OverallTone(Some(b)))
  {
  }

  /** The bar and the percentage text agree on green, and the bar turns red only where the
      text is already amber. */
  lemma CompletenessTonesAgree(score: real)
    ensures CompletenessBarTone(score) == Emerald <==> CompletenessTextTone(score) == Emerald
    ensures CompletenessBarTone(score) == Rose ==> CompletenessTextTone(score) == Amber
  {
  }

  /** A risk's impact badge: "High" red, "Medium" amber, anything else (including "Low"
      and unknown text) blue. */
  function RiskLevelTone(level: string): (r: Tone)
    ensures r == Rose <==> ParseLevel(level) == Some(High)
    ensures r == Amber <==> ParseLevel(level) == Some(Medium)
    ensures r == Blue <==> ParseLevel(level) != Some(High) && ParseLevel(level) != Some(Medium)
  {
    if level == "High" then Rose else if level == "Medium" then Amber else Blue
  }

  /** A risk's likelihood text: "High" red, "Medium" amber, anything else grey. */
  function ProbabilityTone(probability: string): (r: Tone)
    ensures r == Rose <==> ParseLevel(probability) == Some(High)
    ensures r == Amber <==> ParseLevel(probability) == Some(Medium)
    ensures r == Slate <==> ParseLevel(probability) != Some(High) && ParseLevel(probability) != Some(Medium)
  {
    if probability == "High" then Rose else if probability == "Medium" then Amber else Slate
  }

  /** The decision badge: GO green, NO-GO red, CONDITIONAL amber, anything else grey. */
  function DecisionTone(result: string): (r: Tone)
    ensures r == Slate <==> ParseDecision(result).None?
    ensures r == Emerald <==> ParseDecision(result) == Some(Go)
    ensures r == Rose <==> ParseDecision(result) == Some(NoGo)
    ensures r == Amber <==> ParseDecision(result) == Some(Conditional)
  {
    if result == "GO" then Emerald
    else if result == "NO-GO" then Rose
    else if result == "CONDITIONAL" then Amber
    else Slate
  }

  /** The three decisions get three different colours, so the badge tells them apart. */
  lemma DecisionTonesDistinct(a: DecisionResult, b: DecisionResult)
    ensures DecisionTone(a.Name()) == DecisionTone(b.Name()) <==> a == b
  {
  }

  // ---------------------------------------------------------------------------
  // SWOT

  datatype Quadrant = Strengths | Weaknesses | Opportunities | Threats

  /** What a quadrant card lists: the "not enough information" notice, the points, or the
      "no relevant points" line. */
  datatype CardBody = Insufficient | Points(items: seq<string>) | NoPoints

  datatype SwotCard = SwotCard(quadrant: Quadrant, missing: bool, tone: Tone, body: CardBody)

  function QuadrantTone(q: Quadrant): Tone {
    match q
    case Strengths => Emerald
    case Weaknesses => Rose
    case Opportunities => Blue
    case Threats => Amber
  }

  /** One card: a flagged quadrant turns grey; a flagged quadrant without points shows the
      notice; otherwise the points are listed, or the "no points" line when there are none. */
  function Card(q: Quadrant, items: Option<seq<string>>, missing: bool): (r: SwotCard)
    ensures r.quadrant == q && r.missing == missing
    ensures r.tone == Slate <==> missing
    ensures r.body == Insufficient <==> missing && (items.None? || items.value == [])
    ensures r.body.Points? <==> items.Some? && items.value != []
    ensures r.body.Points? ==> r.body.items == items.value
  {
    var tone := if missing then Slate else QuadrantTone(q);
    var body :=
      if missing && (items.None? || items.value == []) then Insufficient
      else if items.Some? && items.value != [] then Points(items.value)
      else NoPoints;
    SwotCard(q, missing, tone, body)
  }

  /** The matrix's four cards, in the order strengths, weaknesses, opportunities, threats;
      a missing flag set counts as no flags. */
  function SwotCards(d: SwotData): (r: seq<SwotCard>)
    ensures |r| == 4
    ensures r[0].quadrant == Strengths && r[1].quadrant == Weaknesses
    ensures r[2].quadrant == Opportunities && r[3].quadrant == Threats
    ensures r[0].missing <==> d.missingData.Some? && d.missingData.value.s
    ensures r[1].missing <==> d.missingData.Some? && d.missingData.value.w
    ensures r[2].missing <==> d.missingData.Some? && d.missingData.value.o
    ensures r[3].missing <==> d.missingData.Some? && d.missingData.value.t
    ensures r[0].body.Points? ==> d.strengths == Some(r[0].body.items)
    ensures r[1].body.Points? ==> d.weaknesses == Some(r[1].body.items)
    ensures r[2].body.Points? ==> d.opportunities == Some(r[2].body.items)
    ensures r[3].body.Points? ==> d.threats == Some(r[3].body.items)
    ensures d.missingData.None? ==> forall k :: 0 <= k < 4 ==> !r[k].missing && r[k].body != Insufficient
  {
    var f := if d.missingData.Some? then d.missingData.value else SwotFlags(false, false, false, false);
    [Card(Strengths, d.strengths, f.s), Card(Weaknesses, d.weaknesses, f.w),
     Card(Opportunities, d.opportunities, f.o), Card(Threats, d.threats, f.t)]
  }

  // ---------------------------------------------------------------------------
  // Radar

  const UnknownDimension := "未知维度"

  /** What the radar draws: one caption and one value per dimension, and the overall score. */
  datatype RadarView = RadarView(captions: seq<string>, values: seq<real>, overall: Option<real>, overallTone: Tone)

  function CaptionOf(d: RadarDimension): (r: string)
    ensures r != []
    ensures d.caption.Some? && d.caption.value != [] ==> r == d.caption.value
  {
    if d.caption.Some? && d.caption.value != [] then d.caption.value else UnknownDimension
  }

  function ValueOf(d: RadarDimension): (r: real)
    ensures d.value.Number? ==> r == d.value.n
    ensures d.value.NotANumber? ==> r == 0.0
  {
    if d.value.Number? then d.value.n else 0.0
  }

  /** The radar: `dimensions` that is not a list counts as empty, and an empty radar draws
      nothing. Each dimension keeps its position; an empty or missing caption becomes
      "unknown dimension" and a value that is not a number becomes 0. */
  function RadarOf(d: RadarData): (r: Option<RadarView>)
    ensures r.None? <==> !d.dimensions.DimensionList? || d.dimensions.items == []
    ensures r.Some? ==> |r.value.captions| == |d.dimensions.items| == |r.value.values|
    ensures r.Some? ==> forall k :: 0 <= k < |d.dimensions.items| ==>
      r.value.captions[k] == CaptionOf(d.dimensions.items[k]) && r.value.values[k] == ValueOf(d.dimensions.items[k])
    ensures r.Some? ==> r.value.overall == d.overallScore && r.value.overallTone == OverallTone(d.overallScore)
  {
    var dims := if d.dimensions.DimensionList? then d.dimensions.items else [];
    if dims == [] then None
    else
      Some(RadarView(
        seq(|dims|, k requires 0 <= k < |dims| => CaptionOf(dims[k])),
        seq(|dims|, k requires 0 <= k < |dims| => ValueOf(dims[k])),
        d.overallScore, OverallTone(d.overallScore)))
  }

  /** Every plotted dimension carries a non-empty caption, and a well-formed dimension is
      drawn exactly as sent. */
  lemma RadarKeepsWellFormed(d: RadarData, k: nat)
    requires d.dimensions.DimensionList? && k < |d.dimensions.items|
    requires d.dimensions.items[k].caption.Some? && d.dimensions.items[k].caption.value != []
    requires d.dimensions.items[k].value.Number?
    ensures RadarOf(d).Some?
    ensures RadarOf(d).value.captions[k] == d.dimensions.items[k].caption.value
    ensures RadarOf(d).value.values[k] == d.dimensions.items[k].value.n
  {
  }

  // ---------------------------------------------------------------------------
  // Assessment

  datatype ScoreRow = ScoreRow(category: string, score: real, tone: Tone, rationale: string)

  datatype RiskBadge = RiskBadge(riskType: string, levelTone: Tone, probabilityTone: Tone, probabilityText: string)

  datatype AssessmentView = AssessmentView(
    decisionTone: Tone,
    completenessTextTone: Tone,
    completenessBarTone: Tone,
    rows: seq<ScoreRow>,
    questions: seq<string>,
    risks: seq<RiskBadge>,
    summary: string)

  function RowOf(item: AssessmentItem): (r: ScoreRow)
    ensures r.category == item.category && r.score == item.score && r.rationale == item.rationale
    ensures r.tone == Emerald <==> item.score >= 8.0
  {
    ScoreRow(item.category, item.score, ScoreTone(item.score), item.rationale)
  }

  /** A risk's badges; an empty likelihood is shown as "?". */
  function BadgeOf(risk: RiskItem): (r: RiskBadge)
    ensures r.probabilityText == (if risk.probability == [] then "?" else risk.probability)
    ensures r.levelTone == RiskLevelTone(risk.level) && r.probabilityTone == ProbabilityTone(risk.probability)
  {
    RiskBadge(risk.riskType, RiskLevelTone(risk.level), ProbabilityTone(risk.probability),
      if risk.probability == [] then "?" else risk.probability)
  }

  /** The assessment card: the decision badge, the completeness audit, one row per scoring
      entry in order, the question panel and the risk panel (each empty, and so not shown,
      when its list is missing or empty), and the summary. */
  function AssessmentOf(a: AssessmentData): (r: AssessmentView)
    ensures r.decisionTone == DecisionTone(a.decision.result)
    ensures r.completenessTextTone == CompletenessTextTone(a.completeness.score)
    ensures r.completenessBarTone == CompletenessBarTone(a.completeness.score)
    ensures |r.rows| == |a.scoringTable|
    ensures forall k :: 0 <= k < |a.scoringTable| ==> r.rows[k] == RowOf(a.scoringTable[k])
    ensures r.questions == [] <==> a.strategicQuestions.None? || a.strategicQuestions.value == []
    ensures a.strategicQuestions.Some? ==> r.questions == a.strategicQuestions.value
    ensures r.risks == [] <==> a.risks.None? || a.risks.value == []
    ensures a.risks.Some? ==> (|r.risks| == |a.risks.value|
      && forall k :: 0 <= k < |a.risks.value| ==> r.risks[k] == BadgeOf(a.risks.value[k]))
    ensures r.summary == a.decision.summary
  {
    var risks := if a.risks.Some? then a.risks.value else [];
    AssessmentView(
      DecisionTone(a.decision.result),
      CompletenessTextTone(a.completeness.score),
      CompletenessBarTone(a.completeness.score),
      seq(|a.scoringTable|, k requires 0 <= k < |a.scoringTable| => RowOf(a.scoringTable[k])),
      if a.strategicQuestions.Some? then a.strategicQuestions.value else [],
      seq(|risks|, k requires 0 <= k < |risks| => BadgeOf(risks[k])),
      a.decision.summary)
  }

  // ---------------------------------------------------------------------------
  // Dispatch

  /** What `ChartRenderer` produces. `RenderFailure` is the assessment card reading fields
      of data that has none: the exception escapes while the card renders. */
  datatype ChartView =
    | NoChart
    | SwotMatrix(cards: seq<SwotCard>)
    | RadarChartView(radar: RadarView)
    | AssessmentCard(card: AssessmentView)
    | RenderFailure

  const NoSwotData := SwotData(None, None, None, None, None)

  /** The tag picks the component and the data is read as that component's shape: data of
      another shape has none of the expected fields. */
  function Render(chart: ChartPayload): (r: ChartView)
    ensures chart.data.None? ==> r == NoChart
    ensures ParseChartType(chart.typeTag).None? ==> r == NoChart
    ensures r.SwotMatrix? ==> ParseChartType(chart.typeTag) == Some(Swot)
    ensures r.RadarChartView? ==> ParseChartType(chart.typeTag) == Some(Radar)
    ensures r.AssessmentCard? || r.RenderFailure? ==> ParseChartType(chart.typeTag) == Some(Assessment)
  {
    match chart.data
    case None => NoChart
    case Some(data) =>
      if chart.typeTag == "swot" then
        SwotMatrix(SwotCards(if data.SwotChart? then data.swot else NoSwotData))
      else if chart.typeTag == "radar" then
        match RadarOf(if data.RadarChart? then data.radar else RadarData(NoDimensions, None))
        case None => NoChart
        case Some(v) => RadarChartView(v)
      else if chart.typeTag == "assessment" then
        if data.AssessmentChart? then AssessmentCard(AssessmentOf(data.assessment)) else RenderFailure
      else NoChart
  }

  /** A chart whose tag names the shape of its data is drawn by that shape's component;
      only a radar with no dimensions draws nothing. */
  lemma RenderMatchingShape(chart: ChartPayload)
    requires chart.data.Some?
    ensures chart.data.value.SwotChart? && chart.typeTag == ChartType.Swot.Name() ==>
      Render(chart) == SwotMatrix(SwotCards(chart.data.value.swot))
    ensures chart.data.value.RadarChart? && chart.typeTag == ChartType.Radar.Name() ==>
      (Render(chart) == NoChart <==> RadarOf(chart.data.value.radar).None?)
    ensures chart.data.value.AssessmentChart? && chart.typeTag == ChartType.Assessment.Name() ==>
      Render(chart) == AssessmentCard(AssessmentOf(chart.data.value.assessment))
  {
  }

  /** A SWOT tag over data of another shape draws four cards, each with the "no relevant
      points" line. */
  lemma SwotOfOtherShape(chart: ChartPayload)
    requires chart.typeTag == "swot" && chart.data.Some? && !chart.data.value.SwotChart?
    ensures Render(chart).SwotMatrix?
    ensures forall k :: 0 <= k < 4 ==> Render(chart).cards[k].body == NoPoints && !Render(chart).cards[k].missing
  {
  }
}
