/** Locating the chart block in a model reply: the first match of the regular
    expression /```json_chart\s*([\s\S]*?)\s*```/ with JavaScript's backtracking
    semantics, computed by a left-to-right scan and related to the expression's
    own leftmost, greedy-then-lazy choice. */
module ChartFence {
  import opened Wrappers
  import opened Text

  const OpenTag := "```json_chart"
  const CloseTag := "```"

  /** A match: the tag at `start`, the captured group `t[contentStart..contentEnd]`,
      the closing backticks at `close`; the whole match is `t[start..close + 3]`. */
  datatype Fence = Fence(start: nat, contentStart: nat, contentEnd: nat, close: nat)

  /** The expression matches with the tag at `i`, the first `\s*` spanning `t[i + 13..q]`,
      the lazy group spanning `t[q..g]`, the second `\s*` spanning `t[g..c]` and the
      closing backticks at `c`. */
  predicate MatchAt(t: string, i: int, q: int, g: int, c: int) {
    && OccursAt(t, OpenTag, i)
    && i + |OpenTag| <= q <= g <= c
    && OccursAt(t, CloseTag, c)
    && AllSpace(t[i + |OpenTag|..q])
    && AllSpace(t[g..c])
  }

  /** The end of the longest run of white space starting at `k`. */
  function SpaceRunEnd(t: string, k: nat): (r: nat)
    requires k <= |t|
    ensures k <= r <= |t|
    ensures AllSpace(t[k..r])
    ensures r < |t| ==> !IsSpace(t[r])
    decreases |t| - k
  {
    if k == |t| || !IsSpace(t[k]) then k
    else
      var r := SpaceRunEnd(t, k + 1);
      assert t[k..r] == [t[k]] + t[k + 1..r];
      r
  }

  /** The start of the longest run of white space that ends at `c` and stays within `lo..c`. */
  function SpaceRunStart(t: string, lo: nat, c: nat): (g: nat)
    requires lo <= c <= |t|
    ensures lo <= g <= c
    ensures AllSpace(t[g..c])
    ensures g > lo ==> !IsSpace(t[g - 1])
    decreases c - lo
  {
    if c == lo || !IsSpace(t[c - 1]) then c
    else
      var g := SpaceRunStart(t, lo, c - 1);
      assert t[g..c] == t[g..c - 1] + [t[c - 1]];
      g
  }

  /** `text.match(...)` for the chart expression: the tag's first occurrence, all white
      space after it, then the first closing backticks, with the white space before them
      excluded from the group. */
  function FindChartFence(t: string): (r: Option<Fence>)
    ensures r.Some? ==> MatchAt(t, r.value.start, r.value.contentStart, r.value.contentEnd, r.value.close)
    ensures r.Some? ==> FirstOccurrence(t, OpenTag, r.value.start)
  {
    match IndexOf(t, OpenTag)
    case None => None
    case Some(i) =>
      var q := SpaceRunEnd(t, i + |OpenTag|);
      match IndexOfFrom(t, CloseTag, q)
      case None => None
      case Some(c) => Some(Fence(i, q, SpaceRunStart(t, q, c), c))
  }

  lemma BacktickAt(t: string, p: string, i: int, k: nat)
    requires OccursAt(t, p, i) && k < |p| && p[k] == '`'
    ensures t[i + k] == '`'
  {
    assert t[i..i + |p|][k] == t[i + k];
  }

  lemma CharInTag(t: string, i: int, k: nat)
    requires OccursAt(t, OpenTag, i) && k < |OpenTag|
    ensures t[i + k] == OpenTag[k]
  {
    assert t[i..i + |OpenTag|][k] == t[i + k];
  }

  /** Two occurrences of the tag never overlap: no proper prefix of it is also a suffix. */
  lemma TagsDoNotOverlap(t: string, i0: int, i: int)
    requires OccursAt(t, OpenTag, i0) && OccursAt(t, OpenTag, i) && i0 < i
    ensures i0 + |OpenTag| <= i
  {
    if i < i0 + |OpenTag| {
      BacktickAt(t, OpenTag, i, 0);
      BacktickAt(t, OpenTag, i, 2);
      if i >= i0 + 3 {
        CharInTag(t, i0, i - i0);
      } else {
        CharInTag(t, i0, i + 2 - i0);
      }
    }
  }

  /** Every character of a white-space slice is white space. */
  lemma SpaceRunChars(t: string, lo: int, hi: int)
    requires 0 <= lo <= hi <= |t| && AllSpace(t[lo..hi])
    ensures forall k :: lo <= k < hi ==> IsSpace(t[k])
  {
    forall k | lo <= k < hi
      ensures IsSpace(t[k])
    {
      assert t[lo..hi][k - lo] == t[k];
    }
  }

  /** Every match of the expression is at or after the one `FindChartFence` reports, and
      among the matches at the same start the reported one is the first the backtracking
      engine tries: the longest leading white space, then the shortest group, then the
      closing backticks that end the trailing white space. In particular, when there is
      no fence the expression matches nowhere. */
  lemma {:induction false} FenceIsFirstMatch(t: string, i: int, q: int, g: int, c: int)
    requires MatchAt(t, i, q, g, c)
    ensures FindChartFence(t).Some?
    ensures FindChartFence(t).value.start <= i
    ensures i == FindChartFence(t).value.start ==> q <= FindChartFence(t).value.contentStart
    ensures (i == FindChartFence(t).value.start && q == FindChartFence(t).value.contentStart)
      ==> FindChartFence(t).value.contentEnd <= g
    ensures (i == FindChartFence(t).value.start && q == FindChartFence(t).value.contentStart
      && g == FindChartFence(t).value.contentEnd) ==> c == FindChartFence(t).value.close
  {
    assert Contains(t, OpenTag);
    var i0 := IndexOf(t, OpenTag).value;
    var q0 := SpaceRunEnd(t, i0 + |OpenTag|);
    CloseAfterLeadingSpace(t, i, q, g, c, i0, q0);
    var c0 := IndexOfFrom(t, CloseTag, q0).value;
    var g0 := SpaceRunStart(t, q0, c0);
    FenceOfFirst(t, i0, q0, c0);
    if i == i0 {
      LeadingSpaceLongest(t, i0, q, q0);
      if q == q0 {
        GroupShortest(t, q0, g, c, c0);
      }
    }
  }

  /** The reported fence, given where the tag and the closing backticks are first found. */
  lemma FenceOfFirst(t: string, i0: nat, q0: nat, c0: nat)
    requires IndexOf(t, OpenTag) == Some(i0)
    requires q0 == SpaceRunEnd(t, i0 + |OpenTag|)
    requires IndexOfFrom(t, CloseTag, q0) == Some(c0)
    ensures FindChartFence(t) == Some(Fence(i0, q0, SpaceRunStart(t, q0, c0), c0))
  {
  }

  /** The closing backticks of any match lie at or after the white space that follows the
      first tag, so a closing tag is found there. */
  lemma CloseAfterLeadingSpace(t: string, i: int, q: int, g: int, c: int, i0: nat, q0: nat)
    requires MatchAt(t, i, q, g, c)
    requires IndexOf(t, OpenTag) == Some(i0)
    requires q0 == SpaceRunEnd(t, i0 + |OpenTag|)
    ensures i0 <= i && q0 <= c
    ensures IndexOfFrom(t, CloseTag, q0).Some?
  {
    SpaceRunChars(t, i0 + |OpenTag|, q0);
    BacktickAt(t, CloseTag, c, 0);
    if i != i0 {
      TagsDoNotOverlap(t, i0, i);
      BacktickAt(t, OpenTag, i, 0);
    }
  }

  /** A white-space run after the tag never reaches past the longest one. */
  lemma LeadingSpaceLongest(t: string, i0: nat, q: int, q0: nat)
    requires i0 + |OpenTag| <= q <= |t| && AllSpace(t[i0 + |OpenTag|..q])
    requires q0 == SpaceRunEnd(t, i0 + |OpenTag|)
    ensures q <= q0
  {
    SpaceRunChars(t, i0 + |OpenTag|, q);
  }

  /** With the same leading white space, the group ends no earlier than the reported one,
      and when it ends at the same place the closing backticks are the same. */
  lemma GroupShortest(t: string, q0: nat, g: int, c: int, c0: nat)
    requires q0 <= g <= c && OccursAt(t, CloseTag, c) && AllSpace(t[g..c])
    requires IndexOfFrom(t, CloseTag, q0) == Some(c0)
    ensures SpaceRunStart(t, q0, c0) <= g
    ensures g == SpaceRunStart(t, q0, c0) ==> c == c0
  {
    SpaceRunChars(t, g, c);
    BacktickAt(t, CloseTag, c0, 0);
  }
}
