/** The service layer between the conversation and the model: converting a message
    history into request contents, stripping data-URL prefixes, splitting a reply into
    text and chart, normalising errors, and summarising the last expert assessment for
    the persona prompt. The model call itself is an oracle passed in by the caller. */
module GeminiService {
  import opened Wrappers
  import opened Text
  import opened Types
  import opened ChartFence

  // ---------------------------------------------------------------------------
  // cleanBase64: b64.replace(/^data:.+;base64,/, '')

  const DataScheme := "data:"
  const Base64Marker := ";base64,"

  /** The anchored expression matches `b[..k + 8]`: the scheme, then at least one character
      that is not a line terminator up to `k`, then the marker at `k`. */
  predicate DataUrlPrefixAt(b: string, k: int) {
    && OccursAt(b, DataScheme, 0)
    && |DataScheme| < k
    && OccursAt(b, Base64Marker, k)
    && forall j :: |DataScheme| <= j < k ==> !IsLineTerminator(b[j])
  }

  /** The end of the line that starts at `k`: the first line terminator at or after `k`. */
  function LineEnd(b: string, k: nat): (r: nat)
    requires k <= |b|
    ensures k <= r <= |b|
    ensures forall j :: k <= j < r ==> !IsLineTerminator(b[j])
    ensures r < |b| ==> IsLineTerminator(b[r])
    decreases |b| - k
  {
    if k == |b| || IsLineTerminator(b[k]) then k else LineEnd(b, k + 1)
  }

  /** The last occurrence of the marker at an index in `6..k`. */
  function LastMarkerUpTo(b: string, k: int): (r: Option<nat>)
    ensures r.Some? ==> |DataScheme| < r.value <= k && OccursAt(b, Base64Marker, r.value)
    ensures r.Some? ==> forall j :: r.value < j <= k ==> !OccursAt(b, Base64Marker, j)
    ensures r.None? ==> forall j :: |DataScheme| < j <= k ==> !OccursAt(b, Base64Marker, j)
    decreases k
  {
    if k <= |DataScheme| then None
    else if OccursAt(b, Base64Marker, k) then Some(k)
    else LastMarkerUpTo(b, k - 1)
  }

  /** Where the greedy `.+` stops: the last marker on the first line, if the text is a data URL. */
  function DataUrlMarker(b: string): (r: Option<nat>)
    ensures r.Some? ==> DataUrlPrefixAt(b, r.value)
    ensures r.Some? ==> forall k :: DataUrlPrefixAt(b, k) ==> k <= r.value
    ensures r.None? ==> forall k :: !DataUrlPrefixAt(b, k)
  {
    if !OccursAt(b, DataScheme, 0) then None
    else
      var e := LineEnd(b, |DataScheme|);
      assert forall k :: DataUrlPrefixAt(b, k) ==> k <= e;
      LastMarkerUpTo(b, e)
  }

  /** `cleanBase64`: drops everything up to and including the last `;base64,` on the first
      line of a data URL, and leaves any other text alone. */
  function CleanBase64(b: string): (r: string)
    ensures (forall k :: !DataUrlPrefixAt(b, k)) ==> r == b
    ensures forall k :: (DataUrlPrefixAt(b, k) && (forall j :: DataUrlPrefixAt(b, j) ==> j <= k))
                        ==> r == b[k + |Base64Marker|..]
  {
    match DataUrlMarker(b)
    case None => b
    case Some(k) => b[k + |Base64Marker|..]
  }

  /** What a file reader produces, `data:<mime>;base64,<payload>`, comes back as the bare
      payload: base64 text never contains `;`, so the marker after the MIME type is the last. */
  lemma CleanBase64OfDataUrl(mime: string, payload: string)
    requires mime != [] && forall j :: 0 <= j < |mime| ==> !IsLineTerminator(mime[j])
    requires forall j :: 0 <= j < |payload| ==> payload[j] != ';'
    ensures CleanBase64(DataScheme + mime + Base64Marker + payload) == payload
  {
    var h := DataScheme + mime + Base64Marker;
    var b := h + payload;
    var m := |DataScheme| + |mime|;
    PrefixAtMarker(mime, payload);
    forall k | DataUrlPrefixAt(b, k)
      ensures k <= m
    {
      NoSemicolonAfterMarker(h, payload, m, k);
      assert b[k..k + 8][0] == b[k];
    }
    assert b[m + |Base64Marker|..] == payload;
  }

  /** The marker after the MIME type makes a data-URL match. */
  lemma PrefixAtMarker(mime: string, payload: string)
    requires mime != [] && forall j :: 0 <= j < |mime| ==> !IsLineTerminator(mime[j])
    ensures DataUrlPrefixAt(DataScheme + mime + Base64Marker + payload, |DataScheme| + |mime|)
  {
    var b := DataScheme + mime + Base64Marker + payload;
    var m := |DataScheme| + |mime|;
    assert b[..5] == DataScheme;
    assert b[m..m + 8] == Base64Marker;
    assert forall j :: 5 <= j < m ==> b[j] == mime[j - 5];
  }

  /** Past the start of the marker, no character is `;`. */
  lemma NoSemicolonAfterMarker(h: string, payload: string, m: int, k: int)
    requires 0 <= m && |h| == m + |Base64Marker| && h[m..] == Base64Marker
    requires forall j :: 0 <= j < |payload| ==> payload[j] != ';'
    ensures m < k < |h + payload| ==> (h + payload)[k] != ';'
  {
    if m < k < |h| {
      assert (h + payload)[k] == h[m..][k - m];
    } else if |h| <= k < |h + payload| {
      assert (h + payload)[k] == payload[k - |h|];
    }
  }

  // ---------------------------------------------------------------------------
  // History to request contents

  datatype ContentRole = UserTurn | ModelTurn {
    function Name(): string {
      match this
      case UserTurn => "user"
      case ModelTurn => "model"
    }
  }

  datatype Part = TextPart(text: string) | InlineData(mimeType: string, data: string)

  datatype Content = Content(role: ContentRole, parts: seq<Part>)

  /** The conversation as the model sees it: messages from the system role are not sent. */
  function NonSystem(history: seq<Message>): (r: seq<Message>)
    ensures |r| <= |history|
    ensures forall m :: m in r <==> m in history && m.role != System
  {
    if history == [] then []
    else if history[0].role == System then NonSystem(history[1..])
    else [history[0]] + NonSystem(history[1..])
  }

  /** The filter commutes with concatenation: the messages sent keep their order and
      multiplicity. */
  lemma {:induction false} NonSystemAppend(a: seq<Message>, b: seq<Message>)
    ensures NonSystem(a + b) == NonSystem(a) + NonSystem(b)
  {
    if a != [] {
      assert (a + b)[1..] == a[1..] + b;
      NonSystemAppend(a[1..], b);
    } else {
      assert a + b == b;
    }
  }

  /** A single message is sent exactly when it is not a system message. */
  lemma NonSystemOne(m: Message)
    ensures NonSystem([m]) == (if m.role == System then [] else [m])
  {
  }

  function RoleOf(m: Message): ContentRole {
    if m.role == User then UserTurn else ModelTurn
  }

  /** Attachments become inline parts, in order, with their data stripped of any data-URL prefix. */
  function AttachmentParts(atts: seq<Attachment>): (r: seq<Part>)
    ensures |r| == |atts|
    ensures forall i :: 0 <= i < |atts| ==>
      r[i] == InlineData(atts[i].mimeType, CleanBase64(atts[i].data))
  {
    if atts == [] then []
    else [InlineData(atts[0].mimeType, CleanBase64(atts[0].data))] + AttachmentParts(atts[1..])
  }

  /** One history message as request content: its text, then its attachments when they are sent. */
  function MessageContent(m: Message, withAttachments: bool): Content {
    var extra := if withAttachments && m.attachments.Some? then AttachmentParts(m.attachments.value) else [];
    Content(RoleOf(m), [TextPart(m.text)] + extra)
  }

  /** The message being sent, always as a user turn with its attachments. */
  function CurrentTurn(input: string, atts: seq<Attachment>): Content {
    Content(UserTurn, [TextPart(input)] + AttachmentParts(atts))
  }

  /** The history loop of either entry point, skipping system messages. */
  function HistoryContents(history: seq<Message>, withAttachments: bool): (r: seq<Content>)
    ensures |r| == |NonSystem(history)|
    ensures forall i :: 0 <= i < |r| ==> r[i] == MessageContent(NonSystem(history)[i], withAttachments)
  {
    if history == [] then []
    else if history[0].role == System then HistoryContents(history[1..], withAttachments)
    else [MessageContent(history[0], withAttachments)] + HistoryContents(history[1..], withAttachments)
  }

  /** Request contents of the expert analysis: every non-system message with its
      attachments, then the current turn. */
  function ExpertContents(history: seq<Message>, input: string, atts: seq<Attachment>): (r: seq<Content>)
    ensures |r| == |NonSystem(history)| + 1
    ensures r[|r| - 1] == CurrentTurn(input, atts)
    ensures forall i :: 0 <= i < |r| - 1 ==>
      (r[i].role == UserTurn <==> NonSystem(history)[i].role == User)
      && |r[i].parts| >= 1 && r[i].parts[0] == TextPart(NonSystem(history)[i].text)
      && r[i].parts[1..] == (if NonSystem(history)[i].attachments.Some?
                             then AttachmentParts(NonSystem(history)[i].attachments.value) else [])
  {
    HistoryContents(history, true) + [CurrentTurn(input, atts)]
  }

  /** Request contents of the persona simulation: history as text only, then the current
      turn, which keeps its attachments. */
  function PersonaContents(history: seq<Message>, input: string, atts: seq<Attachment>): (r: seq<Content>)
    ensures |r| == |NonSystem(history)| + 1
    ensures r[|r| - 1] == CurrentTurn(input, atts)
    ensures forall i :: 0 <= i < |r| - 1 ==> r[i].parts == [TextPart(NonSystem(history)[i].text)]
  {
    HistoryContents(history, false) + [CurrentTurn(input, atts)]
  }

  /** The two entry points send the same turns with the same roles; the persona one only
      leaves out the attachments of earlier messages. */
  lemma PersonaIsExpertWithoutHistoryAttachments(history: seq<Message>, input: string, atts: seq<Attachment>)
    ensures |PersonaContents(history, input, atts)| == |ExpertContents(history, input, atts)|
    ensures forall i :: 0 <= i < |ExpertContents(history, input, atts)| ==>
      PersonaContents(history, input, atts)[i].role == ExpertContents(history, input, atts)[i].role
      && PersonaContents(history, input, atts)[i].parts[0] == ExpertContents(history, input, atts)[i].parts[0]
    ensures PersonaContents(history, input, atts)[|NonSystem(history)|]
      == ExpertContents(history, input, atts)[|NonSystem(history)|]
  {
  }

  // ---------------------------------------------------------------------------
  // Reply decomposition

  /** What `JSON.parse` makes of the fenced text: an error, a value that is not an
      object (or is null), or an object. For an object, `typeTag` is its `type` field
      ("" when missing or falsy) and `data` its `data` field (None when missing or falsy). */
  datatype JsonValue =
    | ParseError
    | NotAnObject
    | AnObject(typeTag: string, title: string, data: Option<ChartData>)

  datatype ServiceResponse = ServiceResponse(text: string, chart: Option<ChartPayload>)

  /** A parsed object is taken as the chart when both `type` and `data` are truthy. */
  function ChartOf(v: JsonValue): (r: Option<ChartPayload>)
    ensures r.Some? <==> v.AnObject? && v.typeTag != "" && v.data.Some?
    ensures r.Some? ==> r.value == ChartPayload(v.typeTag, v.title, v.data)
  {
    if v.AnObject? && v.typeTag != "" && v.data.Some? then Some(ChartPayload(v.typeTag, v.title, v.data))
    else None
  }

  /** The whole matched text of a fence and its captured group. */
  function Span(t: string, f: Fence): string
    requires MatchAt(t, f.start, f.contentStart, f.contentEnd, f.close)
  {
    t[f.start..f.close + |CloseTag|]
  }

  function Group(t: string, f: Fence): string
    requires MatchAt(t, f.start, f.contentStart, f.contentEnd, f.close)
  {
    t[f.contentStart..f.contentEnd]
  }

  /** Splitting the model's text: with no fence the text is returned as it came; otherwise
      the first matched span is replaced by the placeholder (parsed) or removed (parse
      error) and the result is trimmed. `parse` stands for `JSON.parse`. */
  function Decompose(raw: string, parse: string -> JsonValue): (r: ServiceResponse)
    ensures FindChartFence(raw).None? ==> r == ServiceResponse(raw, None)
    ensures r.chart.Some? ==> (FindChartFence(raw).Some?
      && r.chart == ChartOf(parse(Group(raw, FindChartFence(raw).value))))
  {
    match FindChartFence(raw)
    case None => ServiceResponse(raw, None)
    case Some(f) =>
      var span := Span(raw, f);
      var parsed := parse(Group(raw, f));
      if parsed.ParseError? then ServiceResponse(Trim(ReplaceFirst(raw, span, "")), None)
      else ServiceResponse(Trim(ReplaceFirst(raw, span, ChartPlaceholder)), ChartOf(parsed))
  }

  /** Where a word occurs, so does each of its prefixes. */
  lemma OccurrenceOfPrefix(t: string, p: string, q: string, j: int)
    requires |q| <= |p| && p[..|q|] == q
    ensures OccursAt(t, p, j) ==> OccursAt(t, q, j)
  {
    if OccursAt(t, p, j) {
      assert t[j..j + |q|] == t[j..j + |p|][..|q|];
    }
  }

  /** The matched span begins with the tag, so its first occurrence is the fence itself
      and `replace` cuts exactly the matched characters. */
  lemma SpanFirstOccurrence(t: string, f: Fence)
    requires FindChartFence(t) == Some(f)
    ensures FirstOccurrence(t, Span(t, f), f.start)
  {
    var span := Span(t, f);
    assert span[..|OpenTag|] == t[f.start..f.start + |OpenTag|] == OpenTag;
    forall j | 0 <= j < f.start
      ensures !OccursAt(t, span, j)
    {
      OccurrenceOfPrefix(t, span, OpenTag, j);
    }
  }

  /** `replace` of the matched span cuts exactly the characters of the match. */
  lemma ReplaceSpan(t: string, f: Fence, rep: string)
    requires FindChartFence(t) == Some(f)
    ensures ReplaceFirst(t, Span(t, f), rep) == t[..f.start] + rep + t[f.close + |CloseTag|..]
  {
    var span := Span(t, f);
    SpanFirstOccurrence(t, f);
    assert ReplaceFirst(t, span, rep) == t[..f.start] + rep + t[f.start + |span|..];
    assert f.start + |span| == f.close + |CloseTag|;
  }

  /** When the fenced content does not parse, the span is cut out, the rest trimmed, and
      no chart is attached. */
  lemma DecomposeUnparsed(raw: string, parse: string -> JsonValue, f: Fence)
    requires FindChartFence(raw) == Some(f) && parse(Group(raw, f)).ParseError?
    ensures Decompose(raw, parse) == ServiceResponse(Trim(raw[..f.start] + raw[f.close + |CloseTag|..]), None)
  {
    DecomposeCutsSpan(raw, parse, f);
    CutSpan(raw, f);
  }

  lemma DecomposeCutsSpan(raw: string, parse: string -> JsonValue, f: Fence)
    requires FindChartFence(raw) == Some(f) && parse(Group(raw, f)).ParseError?
    ensures Decompose(raw, parse) == ServiceResponse(Trim(ReplaceFirst(raw, Span(raw, f), "")), None)
  {
  }

  /** Removing the matched span leaves the text on either side of it, joined. */
  lemma CutSpan(raw: string, f: Fence)
    requires FindChartFence(raw) == Some(f)
    ensures ReplaceFirst(raw, Span(raw, f), "") == raw[..f.start] + raw[f.close + |CloseTag|..]
  {
    ReplaceSpan(raw, f, "");
    JoinEmpty(raw[..f.start], raw[f.close + |CloseTag|..]);
  }

  lemma JoinEmpty(a: string, b: string)
    ensures a + "" + b == a + b
  {
  }

  /** When the fenced content parses, the placeholder takes the span's place and the text
      around it is trimmed; a chart is attached exactly when the parsed object has a type
      and data. */
  lemma DecomposeParsed(raw: string, parse: string -> JsonValue, f: Fence)
    requires FindChartFence(raw) == Some(f) && !parse(Group(raw, f)).ParseError?
    ensures Decompose(raw, parse).text == Trim(raw[..f.start] + ChartPlaceholder + raw[f.close + |CloseTag|..])
    ensures Decompose(raw, parse).chart.Some? <==>
      parse(Group(raw, f)).AnObject? && parse(Group(raw, f)).typeTag != "" && parse(Group(raw, f)).data.Some?
  {
    ReplaceSpan(raw, f, ChartPlaceholder);
  }

  /** With no match of the chart expression anywhere, the reply is the model's text
      verbatim, untrimmed, with no chart. */
  lemma NoFenceKeepsText(raw: string, parse: string -> JsonValue)
    requires forall i, q, g, c :: !MatchAt(raw, i, q, g, c)
    ensures Decompose(raw, parse) == ServiceResponse(raw, None)
  {
  }

  // ---------------------------------------------------------------------------
  // Calling the model

  /** How the model call ended: with a response whose `text` may be missing, or with an
      error whose `message` may be missing. */
  datatype CallOutcome = Returned(text: Option<string>) | Failed(message: Option<string>)

  const ErrorPrefix := "错误: "
  const ExpertUnavailable := "专家分析服务暂时不可用。"
  const PersonaNoReply := "模拟无效。"

  /** The expert entry point after the call: a missing text counts as empty, an error
      becomes a text with the fixed prefix and its message (or a fixed fallback when the
      message is missing or empty). */
  function ExpertReply(outcome: CallOutcome, parse: string -> JsonValue): (r: ServiceResponse)
    ensures outcome.Failed? ==> r.chart.None? && OccursAt(r.text, ErrorPrefix, 0)
    ensures outcome.Failed? && outcome.message.Some? && outcome.message.value != [] ==>
      r.text == ErrorPrefix + outcome.message.value
    ensures outcome.Failed? && (outcome.message.None? || outcome.message.value == []) ==>
      r.text == ErrorPrefix + ExpertUnavailable
    ensures outcome.Returned? && outcome.text.Some? ==> r == Decompose(outcome.text.value, parse)
    ensures outcome.Returned? && outcome.text.None? ==> r == ServiceResponse("", None)
  {
    match outcome
    case Returned(text) => Decompose(text.GetOr(""), parse)
    case Failed(message) =>
      var detail := if message.Some? && message.value != [] then message.value else ExpertUnavailable;
      ServiceResponse(ErrorPrefix + detail, None)
  }

  /** The persona entry point after the call: never a chart; a missing or empty reply
      becomes a fixed text, and an error its message after the prefix, where a missing
      message reads as `undefined`. */
  function PersonaReply(outcome: CallOutcome): (r: ServiceResponse)
    ensures r.chart.None?
    ensures r.text != []
    ensures outcome.Returned? && outcome.text.Some? && outcome.text.value != [] ==> r.text == outcome.text.value
    ensures outcome.Returned? && (outcome.text.None? || outcome.text.value == []) ==> r.text == PersonaNoReply
    ensures outcome.Failed? ==> OccursAt(r.text, ErrorPrefix, 0)
    ensures outcome.Failed? ==> r.text == ErrorPrefix + outcome.message.GetOr("undefined")
  {
    match outcome
    case Returned(text) => ServiceResponse(if text.Some? && text.value != [] then text.value else PersonaNoReply, None)
    case Failed(message) => ServiceResponse(ErrorPrefix + message.GetOr("undefined"), None)
  }

  /** `generateExpertAnalysis`. Without an API key the client cannot be built and the call
      rejects (None); otherwise the contents go to the model oracle and every outcome,
      failure included, resolves to a response. */
  function GenerateExpertAnalysis(apiKeySet: bool, history: seq<Message>, input: string, atts: seq<Attachment>,
                                  model: seq<Content> -> CallOutcome, parse: string -> JsonValue): (r: Option<ServiceResponse>)
    ensures r.Some? <==> apiKeySet
    ensures r.Some? ==> r.value == ExpertReply(model(ExpertContents(history, input, atts)), parse)
  {
    if !apiKeySet then None else Some(ExpertReply(model(ExpertContents(history, input, atts)), parse))
  }

  /** `simulatePersonaInteraction`, likewise; the persona and the expert context shape
      only the system prompt, which is not modelled. */
  function SimulatePersonaInteraction(apiKeySet: bool, history: seq<Message>, input: string, atts: seq<Attachment>,
                                      model: seq<Content> -> CallOutcome): (r: Option<ServiceResponse>)
    ensures r.Some? <==> apiKeySet
    ensures r.Some? ==> r.value == PersonaReply(model(PersonaContents(history, input, atts)))
    ensures r.Some? ==> r.value.chart.None?
  {
    if !apiKeySet then None else Some(PersonaReply(model(PersonaContents(history, input, atts))))
  }

  // ---------------------------------------------------------------------------
  // The expert context of the persona prompt

  /** A model reply tagged as an assessment chart. */
  predicate IsAssessmentReply(m: Message) {
    m.role == Model && m.chart.Some? && m.chart.value.typeTag == Assessment.Name()
  }

  /** The index of the most recent assessment reply. */
  function LastAssessmentReply(history: seq<Message>): (r: Option<nat>)
    ensures r.Some? ==> r.value < |history| && IsAssessmentReply(history[r.value])
    ensures r.Some? ==> forall j :: r.value < j < |history| ==> !IsAssessmentReply(history[j])
    ensures r.None? ==> forall j :: 0 <= j < |history| ==> !IsAssessmentReply(history[j])
  {
    if history == [] then None
    else if IsAssessmentReply(history[|history| - 1]) then Some(|history| - 1)
    else LastAssessmentReply(history[..|history| - 1])
  }

  /** The categories scored below 6, in table order. */
  function WeakCategories(table: seq<AssessmentItem>): (r: seq<string>)
    ensures |r| <= |table|
    ensures forall i :: 0 <= i < |table| && table[i].score < 6.0 ==> table[i].category in r
    ensures forall c :: c in r ==> exists i :: 0 <= i < |table| && table[i].score < 6.0 && table[i].category == c
  {
    if table == [] then []
    else
      var rest := WeakCategories(table[1..]);
      assert forall i :: 1 <= i < |table| ==> table[i] == table[1..][i - 1];
      if table[0].score < 6.0 then [table[0].category] + rest else rest
  }

  /** Filtering commutes with concatenation, so the order of the table is kept. */
  lemma {:induction false} WeakCategoriesAppend(a: seq<AssessmentItem>, b: seq<AssessmentItem>)
    ensures WeakCategories(a + b) == WeakCategories(a) + WeakCategories(b)
  {
    if a != [] {
      assert (a + b)[1..] == a[1..] + b;
      WeakCategoriesAppend(a[1..], b);
    } else {
      assert a + b == b;
    }
  }

  /** What the persona prompt quotes from the expert: the decision, the weak categories and
      the risk types. A field is None where the chart data has no such field (the data is
      read without checking its shape, so a non-assessment shape yields nothing). */
  datatype ExpertContext = ExpertContext(decision: Option<string>, weakCategories: Option<seq<string>>, riskTypes: Option<seq<string>>)

  function RiskTypes(risks: seq<RiskItem>): (r: seq<string>)
    ensures |r| == |risks| && forall i :: 0 <= i < |risks| ==> r[i] == risks[i].riskType
  {
    if risks == [] then [] else [risks[0].riskType] + RiskTypes(risks[1..])
  }

  /** The context comes from the last assessment reply, and only when its chart has data. */
  function ExpertContextOf(history: seq<Message>): (r: Option<ExpertContext>)
    ensures r.Some? <==> (LastAssessmentReply(history).Some?
      && history[LastAssessmentReply(history).value].chart.value.data.Some?)
    ensures r.Some? && history[LastAssessmentReply(history).value].chart.value.data.value.AssessmentChart? ==>
      var a := history[LastAssessmentReply(history).value].chart.value.data.value.assessment;
      && r.value.decision == Some(a.decision.result) && r.value.weakCategories == Some(WeakCategories(a.scoringTable))
      && r.value.riskTypes == (if a.risks.Some? then Some(RiskTypes(a.risks.value)) else None)
  {
    match LastAssessmentReply(history)
    case None => None
    case Some(i) =>
      match history[i].chart.value.data
      case None => None
      case Some(AssessmentChart(a)) =>
        var risks := if a.risks.Some? then Some(RiskTypes(a.risks.value)) else None;
        Some(ExpertContext(Some(a.decision.result), Some(WeakCategories(a.scoringTable)), risks))
      case Some(_) => Some(ExpertContext(None, None, None))
  }

  /** Replies after the last assessment (the persona's own turns, user messages) do not
      change the context. */
  lemma {:induction false} ContextIgnoresLaterReplies(history: seq<Message>, later: seq<Message>)
    requires forall j :: 0 <= j < |later| ==> !IsAssessmentReply(later[j])
    ensures ExpertContextOf(history + later) == ExpertContextOf(history)
  {
    if later != [] {
      var h := history + later;
      assert h[..|h| - 1] == history + later[..|later| - 1];
      ContextIgnoresLaterReplies(history, later[..|later| - 1]);
    } else {
      assert history + later == history;
    }
  }
}
