/** The conversation handlers of the application component: sending a message, switching
    mode, and loading a demo scenario. An asynchronous handler is two transitions: the
    first runs up to the service call and says which request it makes; the second takes
    the call's result (None when the call rejected) and finishes the handler. */
module Conversation {
  import opened Wrappers
  import opened Text
  import opened Numerals
  import opened Types
  import opened AppState
  import opened GeminiService

  /** The service call a handler makes. */
  datatype Request =
    | ExpertRequest(history: seq<Message>, input: string, atts: seq<Attachment>)
    | PersonaRequest(persona: PersonaProfile, history: seq<Message>, input: string, atts: seq<Attachment>)

  /** A handler's first half: the state it leaves and the request it makes, if any. */
  datatype Dispatch = Dispatch(state: AppState, request: Option<Request>)

  /** The service, given whether an API key is configured, the two model oracles (the
      expert and the persona are different models with different system prompts) and
      `JSON.parse`. */
  function Serve(req: Request, apiKeySet: bool, expert: seq<Content> -> CallOutcome,
                 persona: seq<Content> -> CallOutcome, parse: string -> JsonValue): Option<ServiceResponse>
  {
    match req
    case ExpertRequest(history, input, atts) =>
      GenerateExpertAnalysis(apiKeySet, history, input, atts, expert, parse)
    case PersonaRequest(_, history, input, atts) =>
      SimulatePersonaInteraction(apiKeySet, history, input, atts, persona)
  }

  // ---------------------------------------------------------------------------
  // handleSend

  /** Sending is allowed when not busy and there is non-blank text or an attachment. */
  predicate CanSend(st: AppState) {
    !st.loading && (Trim(st.input) != [] || st.pending != [])
  }

  /** The user's message: the input as typed (not trimmed) and a copy of the pending list. */
  function UserMessage(st: AppState, now: int): Message {
    Message(IntToString(now), User, st.input, Some(st.pending), None, now)
  }

  /** The first half of `handleSend`. */
  function BeginSend(st: AppState, now: int): (r: Dispatch)
    ensures !CanSend(st) ==> r == Dispatch(st, None)
    ensures CanSend(st) ==>
      && r.state.messages == st.messages + [UserMessage(st, now)]
      && r.state.input == [] && r.state.pending == [] && r.state.loading
      && r.state == st.(messages := r.state.messages, input := [], pending := [], loading := true)
    ensures CanSend(st) && st.mode == ExpertAnalysis ==>
      r.request == Some(ExpertRequest(st.messages, st.input, st.pending))
    ensures CanSend(st) && st.mode == PersonaSimulation ==>
      r.request == Some(PersonaRequest(st.persona, st.messages, st.input, st.pending))
  {
    if !CanSend(st) then Dispatch(st, None)
    else
      var user := UserMessage(st, now);
      var req := if st.mode == ExpertAnalysis then ExpertRequest(st.messages, st.input, st.pending)
                 else PersonaRequest(st.persona, st.messages, st.input, st.pending);
      Dispatch(st.(messages := st.messages + [user], input := [], pending := [], loading := true), Some(req))
  }

  const SendFailedText := "抱歉，处理您的请求时遇到错误。"

  /** The reply message: the service's text and chart, or the fixed apology when the call
      rejected. */
  function ReplyMessage(reply: Option<ServiceResponse>, now: int): (m: Message)
    ensures m.role == Model && m.attachments.None?
    ensures reply.Some? ==> m.text == reply.value.text && m.chart == reply.value.chart
    ensures reply.None? ==> m.text == SendFailedText && m.chart.None?
  {
    match reply
    case Some(resp) => Message(IntToString(now + 1), Model, resp.text, None, resp.chart, now)
    case None => Message(IntToString(now), Model, SendFailedText, None, None, now)
  }

  /** The second half of `handleSend`: exactly one model message is appended to whatever
      the working messages are by then, and the busy flag is cleared on every path. */
  function FinishSend(st: AppState, reply: Option<ServiceResponse>, now: int): (r: AppState)
    ensures r.messages == st.messages + [ReplyMessage(reply, now)]
    ensures !r.loading
    ensures r == st.(messages := r.messages, loading := false)
  {
    st.(messages := st.messages + [ReplyMessage(reply, now)], loading := false)
  }

  /** A send that goes through, run to completion: the list grows by the user's message
      and one reply, the composer is empty and the application is idle again. */
  lemma SendRoundTrip(st: AppState, now: int, later: int, apiKeySet: bool,
                      expert: seq<Content> -> CallOutcome, persona: seq<Content> -> CallOutcome,
                      parse: string -> JsonValue)
    requires CanSend(st)
    ensures var d := BeginSend(st, now);
      var r := FinishSend(d.state, Serve(d.request.value, apiKeySet, expert, persona, parse), later);
      && |r.messages| == |st.messages| + 2
      && r.messages[..|st.messages|] == st.messages
      && r.messages[|st.messages|].role == User && r.messages[|st.messages|].text == st.input
      && r.messages[|st.messages|].attachments == Some(st.pending)
      && r.messages[|st.messages| + 1].role == Model
      && !r.loading && r.input == [] && r.pending == []
  {
    SendThenFinish(st, now, Serve(BeginSend(st, now).request.value, apiKeySet, expert, persona, parse), later);
  }

  lemma SendThenFinish(st: AppState, now: int, reply: Option<ServiceResponse>, later: int)
    requires CanSend(st)
    ensures var r := FinishSend(BeginSend(st, now).state, reply, later);
      && |r.messages| == |st.messages| + 2
      && r.messages[..|st.messages|] == st.messages
      && r.messages[|st.messages|] == UserMessage(st, now)
      && r.messages[|st.messages| + 1] == ReplyMessage(reply, later)
      && !r.loading && r.input == [] && r.pending == []
  {
    var r := FinishSend(BeginSend(st, now).state, reply, later);
    AppendTwo(st.messages, UserMessage(st, now), ReplyMessage(reply, later));
  }

  lemma AppendTwo<T>(xs: seq<T>, a: T, b: T)
    ensures var ys := xs + [a] + [b];
      |ys| == |xs| + 2 && ys[..|xs|] == xs && ys[|xs|] == a && ys[|xs| + 1] == b
  {
  }

  /** While busy, and with nothing to send, the handler does nothing. */
  lemma SendIsGated(st: AppState, now: int)
    requires st.loading || (AllSpace(st.input) && st.pending == [])
    ensures BeginSend(st, now) == Dispatch(st, None)
  {
  }

  /** Which text the reply carries: without an API key the call rejects and the apology
      appears; a failed model call shows the error prefix; the persona path never
      attaches a chart. */
  lemma ReplyTexts(req: Request, expert: seq<Content> -> CallOutcome, persona: seq<Content> -> CallOutcome,
                   parse: string -> JsonValue, now: int)
    ensures ReplyMessage(Serve(req, false, expert, persona, parse), now).text == SendFailedText
    ensures req.PersonaRequest? ==> ReplyMessage(Serve(req, true, expert, persona, parse), now).chart.None?
    ensures req.ExpertRequest? && expert(ExpertContents(req.history, req.input, req.atts)).Failed? ==>
      OccursAt(ReplyMessage(Serve(req, true, expert, persona, parse), now).text, ErrorPrefix, 0)
  {
  }

  /** What the reply carries when the model answers: the expert's text split into narrative
      and chart around its first fence, or the persona's text as it came. */
  lemma ReplyOnSuccess(req: Request, expert: seq<Content> -> CallOutcome, persona: seq<Content> -> CallOutcome,
                       parse: string -> JsonValue, now: int, t: string)
    ensures req.ExpertRequest? && expert(ExpertContents(req.history, req.input, req.atts)) == Returned(Some(t)) ==>
      && ReplyMessage(Serve(req, true, expert, persona, parse), now).text == Decompose(t, parse).text
      && ReplyMessage(Serve(req, true, expert, persona, parse), now).chart == Decompose(t, parse).chart
    ensures req.PersonaRequest? && t != [] && persona(PersonaContents(req.history, req.input, req.atts)) == Returned(Some(t)) ==>
      && ReplyMessage(Serve(req, true, expert, persona, parse), now).text == t
      && ReplyMessage(Serve(req, true, expert, persona, parse), now).chart.None?
  {
  }

  // ---------------------------------------------------------------------------
  // handleModeChange

  const ExpertModeHead := "已切换至**出海选品决策模式**。"
  const ExpertModeText := ExpertModeHead + "\n\n让我们重新审视：您的产品在美国市场有真正的机会吗？还是会被供应链成本和激烈的竞争拖垮？请提供最新信息。"
  const PersonaModeHead := "用户仿真模式已激活。\n\n我正在模拟一位来自 **"
  const PersonaModeMiddle := "** 的 **"
  const PersonaModeTail := "** 岁用户。请把您的产品当作已经在 Amazon 或 TikTok 上架展示给我看。"

  /** The announcement for the destination mode; the persona one quotes the country and age. */
  function ModeText(mode: AppMode, p: PersonaProfile): string {
    match mode
    case ExpertAnalysis => ExpertModeText
    case PersonaSimulation => PersonaModeHead + p.country + PersonaModeMiddle + IntToString(p.age) + PersonaModeTail
  }

  /** `handleModeChange`: the mode is set and one model message announcing it is appended,
      even when the mode does not change; pending attachments are dropped. */
  function ModeChange(st: AppState, mode: AppMode, now: int): (r: AppState)
    ensures |r.messages| == |st.messages| + 1 && r.messages[..|st.messages|] == st.messages
    ensures r.messages[|st.messages|].role == Model && r.messages[|st.messages|].text == ModeText(mode, st.persona)
    ensures r.mode == mode && r.pending == []
    ensures r == st.(mode := mode, messages := r.messages, pending := [])
  {
    var m := Message(IntToString(now), Model, ModeText(mode, st.persona), None, None, now);
    st.(mode := mode, messages := st.messages + [m], pending := [])
  }

  /** The announcement depends on the destination mode and, for the persona mode, on the
      country and age alone: occupation, gender and interests do not appear. The two
      announcements never coincide. */
  lemma ModeTextDependsOn(p: PersonaProfile, q: PersonaProfile)
    ensures ModeText(ExpertAnalysis, p) == ModeText(ExpertAnalysis, q)
    ensures p.country == q.country && p.age == q.age ==>
      ModeText(PersonaSimulation, p) == ModeText(PersonaSimulation, q)
    ensures ModeText(ExpertAnalysis, p) != ModeText(PersonaSimulation, q)
  {
    var persona := ModeText(PersonaSimulation, q);
    assert persona == PersonaModeHead + (q.country + PersonaModeMiddle + IntToString(q.age) + PersonaModeTail);
    assert persona[0] == PersonaModeHead[0] == '用';
    assert ExpertModeText[0] == '已';
  }

  // ---------------------------------------------------------------------------
  // handleLoadExample

  /** A demo scenario: its title and its prompt. */
  datatype Scenario = Scenario(title: string, prompt: string)

  const ExamplePrefix := "示例: "
  const DemoIntroHead := "👋 欢迎进入 **模拟演示模式**。\n\n下方已自动加载一份关于 **“"
  const DemoIntroTail := "”** 的调研数据。我将模仿专家视角，为您演示如何进行：\n1. **资金链压力测试**\n2. **合规风险排查**\n3. **HEFM-Pro 7维打分**"
  const DemoTitleMark := "💡 "
  const DemoFailedText := "演示生成失败，请检查网络或 API Key。"

  /** The greeting of a demo, naming the scenario without its "示例: " prefix. */
  function DemoIntro(sc: Scenario, now: int): Message {
    Message("demo-init-" + IntToString(now), Model, DemoIntroHead + ReplaceFirst(sc.title, ExamplePrefix, "") + DemoIntroTail, None, None, now)
  }

  function DemoQuestion(sc: Scenario, now: int): Message {
    Message("demo-user-" + IntToString(now), User, sc.prompt, None, None, now + 100)
  }

  function DemoSession(sc: Scenario, now: int): Session {
    Session(IntToString(now), DemoTitleMark + sc.title, [DemoIntro(sc, now), DemoQuestion(sc, now)], now, ExpertAnalysis, DefaultPersona)
  }

  /** The first half of `handleLoadExample`: unless busy, a session seeded with the greeting
      and the scenario's prompt goes to the front of the list and becomes the working copy
      (expert mode, default persona, no pending attachments), and the expert is asked with
      only the greeting as history. The composer text is left alone. */
  function LoadExample(st: AppState, sc: Scenario, now: int): (r: Dispatch)
    ensures st.loading ==> r == Dispatch(st, None)
    ensures !st.loading ==>
      && r.state.sessions == [DemoSession(sc, now)] + st.sessions
      && r.state.currentId == Some(IntToString(now))
      && r.state.messages == DemoSession(sc, now).messages
      && r.state.mode == ExpertAnalysis && r.state.persona == DefaultPersona
      && r.state.pending == [] && r.state.loading && r.state.input == st.input
      && r.request == Some(ExpertRequest([DemoIntro(sc, now)], sc.prompt, []))
  {
    if st.loading then Dispatch(st, None)
    else
      var s := DemoSession(sc, now);
      Dispatch(st.(sessions := [s] + st.sessions, currentId := Some(s.id), mode := ExpertAnalysis,
                   persona := DefaultPersona, pending := [], messages := s.messages, loading := true),
               Some(ExpertRequest([DemoIntro(sc, now)], sc.prompt, [])))
  }

  /** The second half: the expert's reply, or the fixed failure text when the call
      rejected, is appended and the busy flag cleared. */
  function FinishExample(st: AppState, reply: Option<ServiceResponse>, now: int): (r: AppState)
    ensures |r.messages| == |st.messages| + 1 && r.messages[..|st.messages|] == st.messages
    ensures r.messages[|st.messages|].role == Model && !r.loading
    ensures reply.Some? ==>
      r.messages[|st.messages|].text == reply.value.text && r.messages[|st.messages|].chart == reply.value.chart
    ensures reply.None? ==> r.messages[|st.messages|].text == DemoFailedText
    ensures r == st.(messages := r.messages, loading := false)
  {
    var m := match reply
      case Some(resp) => Message("demo-bot-" + IntToString(now), Model, resp.text, None, resp.chart, now + 2000)
      case None => Message(IntToString(now), Model, DemoFailedText, None, None, now);
    st.(messages := st.messages + [m], loading := false)
  }

  /** The greeting names the scenario with its leading "示例: " removed. */
  lemma DemoIntroNamesTopic(topic: string, prompt: string, now: int)
    ensures DemoIntro(Scenario(ExamplePrefix + topic, prompt), now).text == DemoIntroHead + topic + DemoIntroTail
  {
    var title := ExamplePrefix + topic;
    assert title[..|ExamplePrefix|] == ExamplePrefix;
    assert FirstOccurrence(title, ExamplePrefix, 0);
    assert title[|ExamplePrefix|..] == topic;
    assert ReplaceFirst(title, ExamplePrefix, "") == topic;
  }

  /** The two seeded messages have distinct ids. */
  lemma DemoIdsDistinct(sc: Scenario, now: int)
    ensures DemoIntro(sc, now).id != DemoQuestion(sc, now).id
  {
    var stamp := IntToString(now);
    var a := "demo-init-" + stamp;
    var b := "demo-user-" + stamp;
    assert a[5] == 'i' && b[5] == 'u';
  }
}
