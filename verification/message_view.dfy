/** How a message is shown, copied and exported: the chart goes where the reply's text
    carries the placeholder (or after the text when there is none), the copy button drops
    the placeholder, and the HTML report escapes the text and injects the chart's HTML. */
module MessageView {
  import opened Wrappers
  import opened Text
  import opened Types
  import opened AppState
  import opened ChartFence
  import opened GeminiService
  import VisualModels

  // ---------------------------------------------------------------------------
  // The placeholder

  /** The character of `t` at offset `k` of an occurrence of `p`. */
  lemma CharOfOccurrence(t: string, p: string, i: int, k: nat)
    requires OccursAt(t, p, i) && k < |p|
    ensures t[i + k] == p[k]
  {
    assert t[i..i + |p|][k] == t[i + k];
  }

  /** `[` appears only in the placeholder's first two positions. */
  lemma PlaceholderBrackets(d: nat)
    requires d < |ChartPlaceholder| && ChartPlaceholder[d] == '['
    ensures d <= 1
  {
  }

  /** The placeholder never overlaps itself: no proper prefix of it is also a suffix. */
  lemma PlaceholdersDoNotOverlap(t: string, i: int, k: int)
    requires OccursAt(t, ChartPlaceholder, i) && OccursAt(t, ChartPlaceholder, k) && i < k
    ensures i + |ChartPlaceholder| <= k
  {
    if k < i + |ChartPlaceholder| {
      CharOfOccurrence(t, ChartPlaceholder, k, 0);
      CharOfOccurrence(t, ChartPlaceholder, i, k - i);
      PlaceholderBrackets(k - i);
      CharOfOccurrence(t, ChartPlaceholder, i, 2);
      CharOfOccurrence(t, ChartPlaceholder, k, 1);
    }
  }

  /** In `x + placeholder + y` with no placeholder inside `x`, the first placeholder is the
      one written after `x`. */
  lemma PlaceholderAfter(x: string, y: string)
    requires !Contains(x, ChartPlaceholder)
    ensures FirstOccurrence(x + ChartPlaceholder + y, ChartPlaceholder, |x|)
  {
    var t := x + ChartPlaceholder + y;
    assert t[|x|..|x| + |ChartPlaceholder|] == ChartPlaceholder;
    forall j | 0 <= j < |x| && OccursAt(t, ChartPlaceholder, j)
      ensures false
    {
      PlaceholdersDoNotOverlap(t, j, |x|);
      assert t[j..j + |ChartPlaceholder|] == x[j..j + |ChartPlaceholder|];
      assert OccursAt(x, ChartPlaceholder, j);
    }
  }

  /** Splitting on the placeholder cuts first at the placeholder written after `x`. */
  lemma SplitAtPlaceholder(x: string, rest: string)
    requires !Contains(x, ChartPlaceholder)
    ensures Split(x + ChartPlaceholder + rest, ChartPlaceholder) == [x] + Split(rest, ChartPlaceholder)
  {
    var t := x + ChartPlaceholder + rest;
    PlaceholderAfter(x, rest);
    assert IndexOf(t, ChartPlaceholder) == Some(|x|);
    assert t[..|x|] == x;
    assert t[|x| + |ChartPlaceholder|..] == rest;
  }

  /** Splitting on the placeholder a text with exactly one of it gives the two sides. */
  lemma SplitAroundPlaceholder(x: string, y: string)
    requires !Contains(x, ChartPlaceholder) && !Contains(y, ChartPlaceholder)
    ensures Split(x + ChartPlaceholder + y, ChartPlaceholder) == [x, y]
  {
    SplitAtPlaceholder(x, y);
    SplitPieces(y, ChartPlaceholder);
  }

  // ---------------------------------------------------------------------------
  // The message bubble

  /** What a bubble shows, in order: markdown text and the chart. */
  datatype Block = Markdown(text: string) | ChartView(chart: ChartPayload)

  /** A markdown block for a non-empty text, nothing for an empty one. */
  function TextBlock(s: string): (r: seq<Block>)
    ensures s == [] <==> r == []
    ensures r != [] ==> r == [Markdown(s)]
  {
    if s == [] then [] else [Markdown(s)]
  }

  /** The bubble of a message: the text is split at the placeholder; the part before it, the
      chart (when there is one and the text had a placeholder), the part after the first
      placeholder, and finally the chart when the text had none. Text after a second
      placeholder is not shown. */
  function ViewBlocks(text: string, chart: Option<ChartPayload>): (r: seq<Block>)
    ensures forall b | b in r && b.Markdown? :: b.text != [] && !Contains(b.text, ChartPlaceholder)
    ensures chart.None? ==> forall b | b in r :: b.Markdown?
    ensures chart.Some? ==> ChartView(chart.value) in r
  {
    var parts := Split(text, ChartPlaceholder);
    SplitPieces(text, ChartPlaceholder);
    var chartHere := if chart.Some? && |parts| > 1 then [ChartView(chart.value)] else [];
    var after := if |parts| > 1 then TextBlock(parts[1]) else [];
    var chartAfter := if chart.Some? && |parts| == 1 then [ChartView(chart.value)] else [];
    TextBlock(parts[0]) + chartHere + after + chartAfter
  }

  /** A reply with one placeholder shows the text before it, the chart, and the text after. */
  lemma ViewAtPlaceholder(x: string, y: string, c: ChartPayload)
    requires !Contains(x, ChartPlaceholder) && !Contains(y, ChartPlaceholder)
    ensures ViewBlocks(x + ChartPlaceholder + y, Some(c)) == TextBlock(x) + [ChartView(c)] + TextBlock(y)
  {
    SplitAroundPlaceholder(x, y);
  }

  /** A text without the placeholder is shown whole, with the chart (if any) after it. */
  lemma ViewWithoutPlaceholder(t: string, chart: Option<ChartPayload>)
    requires !Contains(t, ChartPlaceholder)
    ensures chart.None? ==> ViewBlocks(t, chart) == TextBlock(t)
    ensures chart.Some? ==> ViewBlocks(t, chart) == TextBlock(t) + [ChartView(chart.value)]
  {
    SplitPieces(t, ChartPlaceholder);
    assert Split(t, ChartPlaceholder) == [t];
  }

  /** Only the first placeholder places the chart: whatever follows a second one is not shown. */
  lemma ViewDropsAfterSecondPlaceholder(x: string, y: string, z: string, chart: Option<ChartPayload>)
    requires !Contains(x, ChartPlaceholder) && !Contains(y, ChartPlaceholder)
    ensures ViewBlocks(x + ChartPlaceholder + y + ChartPlaceholder + z, chart)
         == ViewBlocks(x + ChartPlaceholder + y, chart)
  {
    var rest := y + ChartPlaceholder + z;
    assert x + ChartPlaceholder + y + ChartPlaceholder + z == x + ChartPlaceholder + rest;
    SplitAtPlaceholder(x, rest);
    SplitAtPlaceholder(y, z);
    SplitAroundPlaceholder(x, y);
    var long := Split(x + ChartPlaceholder + rest, ChartPlaceholder);
    var short := Split(x + ChartPlaceholder + y, ChartPlaceholder);
    assert long[0] == short[0] && long[1] == short[1] && |long| > 1 && |short| > 1;
  }

  /** Trimming the front of a text stops at a word that starts with a non-space character. */
  lemma TrimStartBefore(x: string, w: string)
    requires w != [] && !IsSpace(w[0])
    ensures TrimStart(x + w) == TrimStart(x) + w
  {
    var a := TrimStart(x);
    var ws := x[..|x| - |a|];
    assert x + w == ws + (a + w);
    assert (a + w)[0] == (if a == [] then w[0] else a[0]);
    TrimStartSkips(ws, a + w);
  }

  /** Trimming the end of a text stops at a word that ends with a non-space character. */
  lemma TrimEndAfter(w: string, y: string)
    requires w != [] && !IsSpace(w[|w| - 1])
    ensures TrimEnd(w + y) == w + TrimEnd(y)
  {
    var b := TrimEnd(y);
    var ws := y[|b|..];
    assert w + y == (w + b) + ws;
    assert (w + b)[|w + b| - 1] == (if b == [] then w[|w| - 1] else b[|b| - 1]);
    TrimEndSkips(w + b, ws);
  }

  lemma {:induction false} TrimStartAroundWord(x: string, w: string, y: string)
    requires w != [] && !IsSpace(w[0])
    ensures TrimStart(x + w + y) == TrimStart(x) + w + y
    decreases |x|
  {
    var s := x + w + y;
    if x == [] {
      assert s == w + y;
      assert s[0] == w[0];
    } else {
      assert s[0] == x[0];
      if IsSpace(x[0]) {
        assert s[1..] == x[1..] + w + y;
        TrimStartAroundWord(x[1..], w, y);
      }
    }
  }

  lemma TrimEndAroundWord(a: string, w: string, y: string)
    requires w != [] && !IsSpace(w[|w| - 1])
    ensures TrimEnd(a + w + y) == a + w + TrimEnd(y)
  {
    var v := a + w;
    assert v[|v| - 1] == w[|w| - 1];
    TrimEndAfter(v, y);
  }

  /** Trimming text around a word that starts and ends with a non-space character trims
      only the outer ends. */
  lemma TrimAroundWord(x: string, w: string, y: string)
    requires w != [] && !IsSpace(w[0]) && !IsSpace(w[|w| - 1])
    ensures Trim(x + w + y) == TrimStart(x) + w + TrimEnd(y)
  {
    TrimIsBothEnds(x + w + y);
    TrimStartAroundWord(x, w, y);
    TrimEndAroundWord(TrimStart(x), w, y);
  }

  /** The placeholder starts and ends with a non-space character, so trimming text around
      it trims only the outer ends. */
  lemma TrimAroundPlaceholder(x: string, y: string)
    ensures Trim(x + ChartPlaceholder + y) == TrimStart(x) + ChartPlaceholder + TrimEnd(y)
  {
    assert ChartPlaceholder[0] == '[' && ChartPlaceholder[|ChartPlaceholder| - 1] == ']';
    TrimAroundWord(x, ChartPlaceholder, y);
  }

  /** A suffix or prefix of a text without the placeholder has none either. */
  lemma NoPlaceholderInTrimmed(x: string, y: string)
    requires !Contains(x, ChartPlaceholder) && !Contains(y, ChartPlaceholder)
    ensures !Contains(TrimStart(x), ChartPlaceholder) && !Contains(TrimEnd(y), ChartPlaceholder)
  {
    var a := TrimStart(x);
    var b := TrimEnd(y);
    forall j | 0 <= j <= |a| && OccursAt(a, ChartPlaceholder, j)
      ensures false
    {
      OccursInSuffix(x, ChartPlaceholder, |x| - |a|, j);
    }
    forall j | 0 <= j <= |b| && OccursAt(b, ChartPlaceholder, j)
      ensures false
    {
      OccursInPrefix(y, ChartPlaceholder, |b|, j);
    }
  }

  /** End to end: when the service finds a fence whose content is a chart, and the text
      around the fence has no placeholder of its own, the bubble shows the trimmed text
      before the fence, the chart, and the trimmed text after it. */
  lemma ReplyViewPlacesChart(raw: string, parse: string -> JsonValue, f: Fence)
    requires FindChartFence(raw) == Some(f)
    requires Decompose(raw, parse).chart.Some?
    requires !Contains(raw[..f.start], ChartPlaceholder)
    requires !Contains(raw[f.close + |CloseTag|..], ChartPlaceholder)
    ensures ViewBlocks(Decompose(raw, parse).text, Decompose(raw, parse).chart)
         == TextBlock(TrimStart(raw[..f.start])) + [ChartView(Decompose(raw, parse).chart.value)]
            + TextBlock(TrimEnd(raw[f.close + |CloseTag|..]))
  {
    var x := raw[..f.start];
    var y := raw[f.close + |CloseTag|..];
    DecomposeParsed(raw, parse, f);
    TrimAroundPlaceholder(x, y);
    NoPlaceholderInTrimmed(x, y);
    ViewAtPlaceholder(TrimStart(x), TrimEnd(y), Decompose(raw, parse).chart.value);
  }

  // ---------------------------------------------------------------------------
  // Copying

  /** The copy button's text: the first placeholder removed. */
  function CopyText(text: string): (r: string)
    ensures !Contains(text, ChartPlaceholder) ==> r == text
    ensures forall i :: FirstOccurrence(text, ChartPlaceholder, i) ==> |r| == |text| - |ChartPlaceholder|
  {
    ReplaceFirst(text, ChartPlaceholder, "")
  }

  /** The copied text of a reply with one placeholder is the text on either side, joined. */
  lemma CopyJoinsSides(x: string, y: string)
    requires !Contains(x, ChartPlaceholder)
    ensures CopyText(x + ChartPlaceholder + y) == x + y
  {
    var t := x + ChartPlaceholder + y;
    PlaceholderAfter(x, y);
    assert t[..|x|] == x;
    assert t[|x| + |ChartPlaceholder|..] == y;
  }

  // ---------------------------------------------------------------------------
  // The HTML report

  /** One character of the message text as the report writes it. */
  function EscapeChar(c: char): string {
    if c == '<' then "&lt;" else if c == '>' then "&gt;" else if c == '\n' then "<br/>" else [c]
  }

  /** The text of a message with `<`, `>` and line breaks escaped. */
  function Escape(s: string): (r: string)
    ensures |r| >= |s|
  {
    if s == [] then [] else EscapeChar(s[0]) + Escape(s[1..])
  }

  /** `s.replace(/c/g, rep)` for a one-character pattern. */
  function ReplaceAllChar(s: string, c: char, rep: string): string {
    if s == [] then [] else (if s[0] == c then rep else [s[0]]) + ReplaceAllChar(s[1..], c, rep)
  }

  /** Text without the pattern character is left as it is. */
  lemma {:induction false} ReplaceAllCharAbsent(s: string, c: char, rep: string)
    requires forall k :: 0 <= k < |s| ==> s[k] != c
    ensures ReplaceAllChar(s, c, rep) == s
    decreases |s|
  {
    if s != [] {
      ReplaceAllCharAbsent(s[1..], c, rep);
      assert s == [s[0]] + s[1..];
    }
  }

  lemma {:induction false} ReplaceAllCharAppend(a: string, b: string, c: char, rep: string)
    ensures ReplaceAllChar(a + b, c, rep) == ReplaceAllChar(a, c, rep) + ReplaceAllChar(b, c, rep)
    decreases |a|
  {
    if a != [] {
      var h := if a[0] == c then rep else [a[0]];
      var ab := a + b;
      assert ab[0] == a[0];
      assert ab[1..] == a[1..] + b;
      assert ReplaceAllChar(ab, c, rep) == h + ReplaceAllChar(a[1..] + b, c, rep);
      ReplaceAllCharAppend(a[1..], b, c, rep);
      assert ReplaceAllChar(a, c, rep) == h + ReplaceAllChar(a[1..], c, rep);
    } else {
      assert a + b == b;
    }
  }

  /** The three passes the report makes, in its order. */
  function EscapePasses(s: string): string {
    ReplaceAllChar(ReplaceAllChar(ReplaceAllChar(s, '<', "&lt;"), '>', "&gt;"), '\n', "<br/>")
  }

  lemma EscapePassesAppend(a: string, b: string)
    ensures EscapePasses(a + b) == EscapePasses(a) + EscapePasses(b)
  {
    ReplaceAllCharAppend(a, b, '<', "&lt;");
    var a1 := ReplaceAllChar(a, '<', "&lt;");
    var b1 := ReplaceAllChar(b, '<', "&lt;");
    ReplaceAllCharAppend(a1, b1, '>', "&gt;");
    var a2 := ReplaceAllChar(a1, '>', "&gt;");
    var b2 := ReplaceAllChar(b1, '>', "&gt;");
    ReplaceAllCharAppend(a2, b2, '\n', "<br/>");
  }

  /** On a single character the three passes give that character's escape. */
  lemma EscapePassesChar(c: char)
    ensures EscapePasses([c]) == EscapeChar(c)
  {
    var lt := "&lt;";
    var gt := "&gt;";
    var br := "<br/>";
    if c == '<' {
      assert ReplaceAllChar([c], '<', lt) == lt;
      ReplaceAllCharAbsent(lt, '>', gt);
      ReplaceAllCharAbsent(lt, '\n', br);
    } else if c == '>' {
      ReplaceAllCharAbsent([c], '<', lt);
      assert ReplaceAllChar([c], '>', gt) == gt;
      ReplaceAllCharAbsent(gt, '\n', br);
    } else if c == '\n' {
      ReplaceAllCharAbsent([c], '<', lt);
      ReplaceAllCharAbsent([c], '>', gt);
      assert ReplaceAllChar([c], '\n', br) == br;
    } else {
      ReplaceAllCharAbsent([c], '<', lt);
      ReplaceAllCharAbsent([c], '>', gt);
      ReplaceAllCharAbsent([c], '\n', br);
    }
  }

  /** The passes never re-escape each other's output (no replacement contains a later
      pass's character), so the three passes amount to escaping each character once. */
  lemma {:induction false} EscapeIsThreePasses(s: string)
    ensures Escape(s) == EscapePasses(s)
    decreases |s|
  {
    if s != [] {
      assert s == [s[0]] + s[1..];
      EscapePassesAppend([s[0]], s[1..]);
      EscapePassesChar(s[0]);
      EscapeIsThreePasses(s[1..]);
    }
  }

  lemma {:induction false} EscapeAppend(a: string, b: string)
    ensures Escape(a + b) == Escape(a) + Escape(b)
    decreases |a|
  {
    if a != [] {
      assert (a + b)[1..] == a[1..] + b;
      EscapeAppend(a[1..], b);
    } else {
      assert a + b == b;
    }
  }

  /** Text with none of the three characters is written as it is. */
  lemma {:induction false} EscapePlain(s: string)
    requires forall k :: 0 <= k < |s| ==> s[k] != '<' && s[k] != '>' && s[k] != '\n'
    ensures Escape(s) == s
    decreases |s|
  {
    if s != [] {
      EscapePlain(s[1..]);
    }
  }

  /** An escaped character starts with itself, or with `&` or `<` when it was replaced. */
  lemma EscapeCharHead(c: char)
    ensures |EscapeChar(c)| >= 1
    ensures EscapeChar(c)[0] == c || EscapeChar(c)[0] == '&' || EscapeChar(c)[0] == '<'
    ensures EscapeChar(c)[0] == c ==> EscapeChar(c) == [c]
  {
  }

  /** A `[` in escaped text comes from a `[` in the text itself. */
  lemma EscapeCharBracket(c: char, j: nat)
    requires j < |EscapeChar(c)| && EscapeChar(c)[j] == '['
    ensures EscapeChar(c) == [c] && j == 0
  {
  }

  /** Escaped text that starts with a word free of `&` and `<` came from text that starts
      with the same word. */
  lemma {:induction false} EscapedPrefix(x: string, w: string)
    requires |w| <= |Escape(x)| && Escape(x)[..|w|] == w
    requires forall k :: 0 <= k < |w| ==> w[k] != '&' && w[k] != '<'
    ensures |w| <= |x| && x[..|w|] == w
    decreases |w|
  {
    if w != [] {
      var e := Escape(x);
      assert x != [];
      var chunk := EscapeChar(x[0]);
      EscapeCharHead(x[0]);
      assert e == chunk + Escape(x[1..]);
      assert e[0] == w[0];
      assert chunk == [x[0]];
      assert Escape(x[1..]) == e[1..];
      assert Escape(x[1..])[..|w| - 1] == w[1..];
      EscapedPrefix(x[1..], w[1..]);
      assert x[..|w|] == [x[0]] + x[1..][..|w| - 1];
    }
  }

  /** An occurrence past the end of the left operand is an occurrence in the right one. */
  lemma OccursInRight(a: string, b: string, p: string, j: int)
    requires OccursAt(a + b, p, j) && j >= |a|
    ensures OccursAt(b, p, j - |a|)
  {
    assert b[j - |a|..j - |a| + |p|] == (a + b)[j..j + |p|];
  }

  lemma PlaceholderHasNoEscapeStart()
    ensures forall k :: 0 <= k < |ChartPlaceholder| ==> ChartPlaceholder[k] != '&' && ChartPlaceholder[k] != '<'
  {
  }

  /** Escaping never creates a placeholder: one in the escaped text was in the text. */
  lemma {:induction false} EscapeReflectsPlaceholder(x: string, j: int)
    requires OccursAt(Escape(x), ChartPlaceholder, j)
    ensures Contains(x, ChartPlaceholder)
    decreases |x|
  {
    assert x != [];
    var chunk := EscapeChar(x[0]);
    var rest := Escape(x[1..]);
    var e := Escape(x);
    assert e == chunk + rest;
    if j >= |chunk| {
      OccursInRight(chunk, rest, ChartPlaceholder, j);
      EscapeReflectsPlaceholder(x[1..], j - |chunk|);
      var k :| 0 <= k <= |x[1..]| && OccursAt(x[1..], ChartPlaceholder, k);
      OccursInSuffix(x, ChartPlaceholder, 1, k);
    } else {
      CharOfOccurrence(e, ChartPlaceholder, j, 0);
      assert e[j] == chunk[j];
      EscapeCharBracket(x[0], j);
      PlaceholderHasNoEscapeStart();
      assert e[..|ChartPlaceholder|] == ChartPlaceholder;
      EscapedPrefix(x, ChartPlaceholder);
      assert OccursAt(x, ChartPlaceholder, 0);
    }
  }

  lemma EscapeKeepsNoPlaceholder(x: string)
    requires !Contains(x, ChartPlaceholder)
    ensures !Contains(Escape(x), ChartPlaceholder)
  {
    forall j | 0 <= j <= |Escape(x)| && OccursAt(Escape(x), ChartPlaceholder, j)
      ensures false
    {
      EscapeReflectsPlaceholder(x, j);
    }
  }

  const ChartDivOpen := "<div style=\"margin-top: 20px;\">"
  const ChartDivClose := "</div>"

  /** Where the report's chart-to-HTML conversion throws. It reads the data as the shape
      its tag names, without checking: a SWOT, radar or assessment chart without data, an
      assessment chart whose data has no `decision`, and a radar whose `dimensions` is a
      truthy value other than a list (only a falsy one is replaced by the empty list) all
      fail. A SWOT or radar tag over data of another shape reads missing fields as empty. */
  predicate ChartHtmlFails(c: ChartPayload) {
    match ParseChartType(c.typeTag)
    case None => false
    case Some(Swot) => c.data.None?
    case Some(Radar) => c.data.None? || (c.data.value.RadarChart? && c.data.value.radar.dimensions.NotAList?)
    case Some(Assessment) => c.data.None? || !c.data.value.AssessmentChart?
  }

  /** The chart's HTML in the report: an unknown tag gives none, and `render` stands for the
      conversion of the three known shapes. */
  function ChartHtml(c: ChartPayload, render: ChartPayload -> string): (r: string)
    ensures ParseChartType(c.typeTag).None? ==> r == []
    ensures ParseChartType(c.typeTag).Some? ==> r == render(c)
  {
    if ParseChartType(c.typeTag).None? then [] else render(c)
  }

  /** The report cannot be built exactly when one of its messages carries a chart whose
      HTML conversion throws: the whole report is abandoned. */
  predicate ExportFails(messages: seq<Message>) {
    exists k :: 0 <= k < |messages| && messages[k].chart.Some? && ChartHtmlFails(messages[k].chart.value)
  }

  /** A chart whose tag names the shape of its data, with a list or a falsy value for radar
      dimensions. */
  predicate WellShaped(c: ChartPayload) {
    && c.data.Some?
    && ((c.data.value.SwotChart? && c.typeTag == ChartType.Swot.Name())
        || (c.data.value.RadarChart? && c.typeTag == ChartType.Radar.Name() && !c.data.value.radar.dimensions.NotAList?)
        || (c.data.value.AssessmentChart? && c.typeTag == ChartType.Assessment.Name()))
  }

  /** A chart the bubble cannot draw cannot be exported either, while a well-shaped chart
      always can. */
  lemma ExportFailsWhereBubbleFails(c: ChartPayload)
    ensures VisualModels.Render(c) == VisualModels.RenderFailure ==> ChartHtmlFails(c)
    ensures WellShaped(c) ==> !ChartHtmlFails(c)
  {
  }

  /** A message's content in the report: the escaped text, with the chart's HTML in place
      of the first placeholder, or appended in its own block when there is none. */
  function ExportContent(m: Message, render: ChartPayload -> string): (r: string)
    ensures m.chart.None? ==> r == Escape(m.text)
  {
    var content := Escape(m.text);
    if m.chart.None? then content
    else if Contains(content, ChartPlaceholder) then ReplaceFirst(content, ChartPlaceholder, ChartHtml(m.chart.value, render))
    else content + ChartDivOpen + ChartHtml(m.chart.value, render) + ChartDivClose
  }

  /** The placeholder itself passes through escaping unchanged. */
  lemma EscapeAroundPlaceholder(x: string, y: string)
    ensures Escape(x + ChartPlaceholder + y) == Escape(x) + ChartPlaceholder + Escape(y)
  {
    EscapeAppend(x + ChartPlaceholder, y);
    EscapeAppend(x, ChartPlaceholder);
    EscapePlaceholder();
  }

  lemma EscapePlaceholder()
    ensures Escape(ChartPlaceholder) == ChartPlaceholder
  {
    var p := ChartPlaceholder;
    assert forall k :: 0 <= k < |p| ==> p[k] != '<' && p[k] != '>' && p[k] != '\n';
    EscapePlain(p);
  }

  /** In the report, a chart goes exactly where the bubble shows it: at the first
      placeholder, between the escaped text on either side. */
  lemma ExportAtPlaceholder(m: Message, x: string, y: string, render: ChartPayload -> string)
    requires m.chart.Some? && m.text == x + ChartPlaceholder + y
    requires !Contains(x, ChartPlaceholder)
    ensures ExportContent(m, render) == Escape(x) + ChartHtml(m.chart.value, render) + Escape(y)
  {
    EscapeAroundPlaceholder(x, y);
    EscapeKeepsNoPlaceholder(x);
    var ex := Escape(x);
    var ey := Escape(y);
    var e := ex + ChartPlaceholder + ey;
    PlaceholderAfter(ex, ey);
    assert e[..|ex|] == ex;
    assert e[|ex| + |ChartPlaceholder|..] == ey;
    assert Contains(e, ChartPlaceholder);
    assert ReplaceFirst(e, ChartPlaceholder, ChartHtml(m.chart.value, render)) == ex + ChartHtml(m.chart.value, render) + ey;
  }

  /** A chart whose text has no placeholder is appended after the escaped text. */
  lemma ExportAppendsChart(m: Message, render: ChartPayload -> string)
    requires m.chart.Some? && !Contains(m.text, ChartPlaceholder)
    ensures ExportContent(m, render) == Escape(m.text) + ChartDivOpen + ChartHtml(m.chart.value, render) + ChartDivClose
  {
    EscapeKeepsNoPlaceholder(m.text);
  }

  /** One message of the report. */
  datatype ExportEntry = ExportEntry(roleClass: string, roleCaption: string, content: string)

  /** The report: its title, the mode line, and one entry per message. */
  datatype Report = Report(title: string, modeLine: string, entries: seq<ExportEntry>)

  const ReportFallbackTitle := "GlobalLaunch AI Report"
  const ExpertModeLine := "专家决策 (Expert Analysis)"
  const PersonaModeLine := "用户仿真 (Persona Simulation)"

  function EntryOf(m: Message, render: ChartPayload -> string): (r: ExportEntry)
    ensures r.roleCaption == "User" <==> m.role == User
    ensures r.roleClass == "user" <==> m.role == User
    ensures r.content == ExportContent(m, render)
  {
    if m.role == User then ExportEntry("user", "User", ExportContent(m, render))
    else ExportEntry("model", "AI Advisor", ExportContent(m, render))
  }

  /** The title of the first session with the given id, if there is one. */
  function FindTitle(sessions: seq<Session>, id: Option<string>): (r: Option<string>)
    ensures r.Some? <==> id.Some? && exists k :: 0 <= k < |sessions| && sessions[k].id == id.value
    ensures r.Some? ==> exists k :: (0 <= k < |sessions| && sessions[k].id == id.value
      && sessions[k].title == r.value
      && forall j :: 0 <= j < k ==> sessions[j].id != id.value)
  {
    if id.None? || sessions == [] then None
    else if sessions[0].id == id.value then Some(sessions[0].title)
    else
      var r := FindTitle(sessions[1..], id);
      assert r.Some? ==> exists k :: 0 <= k < |sessions| && sessions[k].id == id.value;
      assert (exists k :: 0 <= k < |sessions| && sessions[k].id == id.value) ==>
        exists k :: 0 <= k < |sessions[1..]| && sessions[1..][k].id == id.value;
      r
  }

  /** The report for the conversation on screen; nothing is exported when it is empty, or
      when the HTML of one of its charts cannot be generated. The mode line follows the
      mode currently selected. */
  function Export(st: AppState, render: ChartPayload -> string): (r: Option<Report>)
    ensures r.None? <==> st.messages == [] || ExportFails(st.messages)
    ensures r.Some? ==> |r.value.entries| == |st.messages|
    ensures r.Some? ==> forall k :: 0 <= k < |st.messages| ==>
      r.value.entries[k] == EntryOf(st.messages[k], render)
    ensures r.Some? ==> r.value.title != []
    ensures r.Some? ==> (r.value.title == ReportFallbackTitle
      || (FindTitle(st.sessions, st.currentId).Some? && r.value.title == FindTitle(st.sessions, st.currentId).value))
    ensures r.Some? && FindTitle(st.sessions, st.currentId).Some? && FindTitle(st.sessions, st.currentId).value != [] ==>
      r.value.title == FindTitle(st.sessions, st.currentId).value
    ensures r.Some? ==> (r.value.modeLine == ExpertModeLine <==> st.mode == ExpertAnalysis)
    ensures r.Some? && st.mode == PersonaSimulation ==> r.value.modeLine == PersonaModeLine
  {
    if st.messages == [] || ExportFails(st.messages) then None
    else
      var found := FindTitle(st.sessions, st.currentId);
      var title := if found.Some? && found.value != [] then found.value else ReportFallbackTitle;
      var modeLine := if st.mode == ExpertAnalysis then ExpertModeLine else PersonaModeLine;
      assert ExpertModeLine[0] != PersonaModeLine[0];
      Some(Report(title, modeLine, seq(|st.messages|, k requires 0 <= k < |st.messages| => EntryOf(st.messages[k], render))))
  }
}
