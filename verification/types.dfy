// The application's data model: closed enumerations, the chart payload
// variants, messages, sessions and persona profiles.
module Types {
  import opened Wrappers

  /** Who wrote a message. */
  datatype MessageRole = User | Model | System {
    function Name(): string {
      match this
      case User => "user"
      case Model => "model"
      case System => "system"
    }
  }

  /** The two conversation modes. */
  datatype AppMode = ExpertAnalysis | PersonaSimulation {
    function Name(): string {
      match this
      case ExpertAnalysis => "expert"
      case PersonaSimulation => "persona"
    }
  }

  /** The three chart kinds a reply may carry. */
  datatype ChartType = Swot | Radar | Assessment {
    function Name(): string {
      match this
      case Swot => "swot"
      case Radar => "radar"
      case Assessment => "assessment"
    }
  }

  /** The enumeration behind impact, severity, likelihood and tech savviness. */
  datatype Level = Low | Medium | High {
    function Name(): string {
      match this
      case Low => "Low"
      case Medium => "Medium"
      case High => "High"
    }
  }

  /** The recommendation of an assessment. */
  datatype DecisionResult = Go | NoGo | Conditional {
    function Name(): string {
      match this
      case Go => "GO"
      case NoGo => "NO-GO"
      case Conditional => "CONDITIONAL"
    }
  }

  datatype CompletenessStatus = CriticalMissing | Partial | Sufficient {
    function Name(): string {
      match this
      case CriticalMissing => "Critical Missing"
      case Partial => "Partial"
      case Sufficient => "Sufficient"
    }
  }

  datatype RiskType = IpInfringement | PlatformPolicy | DataPrivacy | Logistics | Safety {
    function Name(): string {
      match this
      case IpInfringement => "IP Infringement"
      case PlatformPolicy => "Platform Policy"
      case DataPrivacy => "Data Privacy"
      case Logistics => "Logistics"
      case Safety => "Safety"
    }
  }

  /** Reads a chart tag; any string outside the closed set is not a chart type. */
  function ParseChartType(tag: string): (r: Option<ChartType>)
    ensures r.Some? ==> r.value.Name() == tag
    ensures r.None? ==> forall t: ChartType :: t.Name() != tag
  {
    if tag == "swot" then Some(Swot)
    else if tag == "radar" then Some(Radar)
    else if tag == "assessment" then Some(Assessment)
    else None
  }

  /** Reads a level name; anything else is not a level. */
  function ParseLevel(s: string): (r: Option<Level>)
    ensures r.Some? ==> r.value.Name() == s
    ensures r.None? ==> forall l: Level :: l.Name() != s
  {
    if s == "Low" then Some(Low)
    else if s == "Medium" then Some(Medium)
    else if s == "High" then Some(High)
    else None
  }

  /** Reads a decision name; anything else is not a decision. */
  function ParseDecision(s: string): (r: Option<DecisionResult>)
    ensures r.Some? ==> r.value.Name() == s
    ensures r.None? ==> forall d: DecisionResult :: d.Name() != s
  {
    if s == "GO" then Some(Go)
    else if s == "NO-GO" then Some(NoGo)
    else if s == "CONDITIONAL" then Some(Conditional)
    else None
  }

  /** Each enumeration's names are pairwise distinct, so parsing a name gives the value back. */
  lemma ChartTypeRoundTrip(t: ChartType)
    ensures ParseChartType(t.Name()) == Some(t)
  {
  }

  lemma LevelRoundTrip(l: Level)
    ensures ParseLevel(l.Name()) == Some(l)
  {
  }

  lemma DecisionRoundTrip(d: DecisionResult)
    ensures ParseDecision(d.Name()) == Some(d)
  {
  }

  lemma RoleNamesDistinct(a: MessageRole, b: MessageRole)
    ensures a.Name() == b.Name() <==> a == b
  {
  }

  lemma ModeNamesDistinct(a: AppMode, b: AppMode)
    ensures a.Name() == b.Name() <==> a == b
  {
  }

  /** A file handed to the model: name, MIME type and base64 payload (possibly a data URL). */
  datatype Attachment = Attachment(name: string, mimeType: string, data: string)

  /** The optional per-quadrant "not enough information" flags of a SWOT chart. */
  datatype SwotFlags = SwotFlags(s: bool, w: bool, o: bool, t: bool)

  datatype SwotData = SwotData(
    strengths: Option<seq<string>>,
    weaknesses: Option<seq<string>>,
    opportunities: Option<seq<string>>,
    threats: Option<seq<string>>,
    missingData: Option<SwotFlags>)

  /** A JSON value where the radar chart expects a number. */
  datatype NumberField = Number(n: real) | NotANumber

  datatype RadarDimension = RadarDimension(caption: Option<string>, value: NumberField, comment: Option<string>)

  /** The `dimensions` field as the model sent it: a list, a missing or falsy value
      (`undefined`, `null`, `0`, `""`), or some other value that is not a list. */
  datatype RadarDimensions = DimensionList(items: seq<RadarDimension>) | NoDimensions | NotAList

  datatype RadarData = RadarData(dimensions: RadarDimensions, overallScore: Option<real>)

  /** A scoring-table row; `impact` is one of the level names. */
  datatype AssessmentItem = AssessmentItem(category: string, score: real, weight: real, rationale: string, impact: string)

  /** A risk; `level` and `probability` are level names, `riskType` a risk-type name. */
  datatype RiskItem = RiskItem(riskType: string, level: string, probability: string, description: string, mitigation: string)

  datatype Completeness = Completeness(score: real, status: string, missingFields: seq<string>, acquiredFields: Option<seq<string>>)

  /** `result` is one of the decision names. */
  datatype Decision = Decision(result: string, confidence: real, summary: string)

  datatype AssessmentData = AssessmentData(
    completeness: Completeness,
    decision: Decision,
    scoringTable: seq<AssessmentItem>,
    risks: Option<seq<RiskItem>>,
    strategicQuestions: Option<seq<string>>)

  /** The three data shapes a chart can carry. */
  datatype ChartData =
    | SwotChart(swot: SwotData)
    | RadarChart(radar: RadarData)
    | AssessmentChart(assessment: AssessmentData)

  /**
   * A chart as decoded from the model's JSON. The JSON is not validated, so
   * the tag is kept as the raw string and the data may be missing or of a
   * shape other than the one the tag names.
   */
  datatype ChartPayload = ChartPayload(typeTag: string, title: string, data: Option<ChartData>)

  datatype Message = Message(
    id: string,
    role: MessageRole,
    text: string,
    attachments: Option<seq<Attachment>>,
    chart: Option<ChartPayload>,
    timestamp: int)

  /** The simulated user; `techSavviness` is closed, the other fields are free text or numbers. */
  datatype PersonaProfile = PersonaProfile(
    country: string,
    age: int,
    gender: string,
    occupation: string,
    interests: string,
    techSavviness: Level)

  /** A conversation with its own mode and persona snapshot. */
  datatype Session = Session(
    id: string,
    title: string,
    messages: seq<Message>,
    lastModified: int,
    mode: AppMode,
    persona: PersonaProfile)

  const DefaultPersona := PersonaProfile(
    "United States", 24, "Female", "Content Creator",
    "TikTok trends, smart home gadgets, productivity", High)

  /** The title of a session that has not been named yet. */
  const DefaultTitle := "新对话"

  /** The marker a reply's text carries where its chart belongs. */
  const ChartPlaceholder := "[[CHART_PLACEHOLDER]]"
}
