/** The state the application component keeps: the session list, which session is
    active, the working copy of its messages, mode and persona, the composer (input text
    and pending attachments), the busy flag, and the record in browser storage. */
module AppState {
  import opened Wrappers
  import opened Types

  /** The stored session list: nothing saved, a value that does not parse, or a list. */
  datatype StoreRecord = Absent | Corrupt | Saved(sessions: seq<Session>)

  datatype AppState = AppState(
    sessions: seq<Session>,
    currentId: Option<string>,
    mode: AppMode,
    messages: seq<Message>,
    persona: PersonaProfile,
    input: string,
    loading: bool,
    pending: seq<Attachment>,
    stored: StoreRecord)

  /** The component's state before any effect runs, over whatever storage holds. */
  function Initial(stored: StoreRecord): AppState {
    AppState([], None, ExpertAnalysis, [], DefaultPersona, "", false, [], stored)
  }

  /** The greeting every new session starts with. */
  const WelcomeText := "你好。我是您的**首席跨境投资顾问**。\n\n除了您提到的**资金**和**市场**，作为专家，我还必须考量**“流量成本”**和**“产品壁垒”**。为了建立完整的 **7维 HEFM-Pro 评估模型**，请告诉我：\n\n1. **卖什么？** (有独特卖点吗？还是纯公模？)\n2. **卖去哪？** (默认为美国)\n3. **多少钱？** (启动预算决定了能玩多大的盘子)\n4. **怎么卖？** (依靠 Amazon 搜索流量，还是 TikTok 视频带货？这决定了获客成本)\n\n👉 建议点击下方 **“📝 填写申报单”**，以获得最精准的评估报告。"

  /** `loadSession`: the session becomes active and its messages, mode and persona become
      the working copy; pending attachments are dropped. The list, the composer text, the
      busy flag and storage are untouched. */
  function Load(st: AppState, s: Session): (r: AppState)
    ensures r.currentId == Some(s.id)
    ensures r.messages == s.messages && r.mode == s.mode && r.persona == s.persona
    ensures r.pending == []
    ensures r.sessions == st.sessions && r.input == st.input && r.loading == st.loading && r.stored == st.stored
  {
    st.(currentId := Some(s.id), messages := s.messages, mode := s.mode, persona := s.persona, pending := [])
  }
}
