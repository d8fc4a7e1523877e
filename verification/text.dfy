/** The string operations the front-end borrows from JavaScript: `trim`, first-occurrence
    search, `replace` with a string pattern, and `split` on a separator. Strings are
    sequences of characters; UTF-16 code units are not distinguished from characters. */
module Text {
  import opened Wrappers

  /** The characters `String.prototype.trim` removes and the regular-expression class `\s`
      matches (white space and line terminators). */
  predicate IsSpace(c: char) {
    || c == ' ' || c == '\t' || c == '\n' || c == '\r' || c == '\U{000B}' || c == '\U{000C}'
    || c == '\U{00A0}' || c == '\U{1680}' || ('\U{2000}' <= c <= '\U{200A}')
    || c == '\U{2028}' || c == '\U{2029}' || c == '\U{202F}' || c == '\U{205F}'
    || c == '\U{3000}' || c == '\U{FEFF}'
  }

  /** The characters the regular-expression `.` does not match. */
  predicate IsLineTerminator(c: char) {
    c == '\n' || c == '\r' || c == '\U{2028}' || c == '\U{2029}'
  }

  predicate AllSpace(s: string) {
    forall i :: 0 <= i < |s| ==> IsSpace(s[i])
  }

  /** Leading white space removed: the result is the longest suffix of `s` that does
      not start with white space, and everything cut off is white space. */
  function TrimStart(s: string): (r: string)
    ensures |r| <= |s| && r == s[|s| - |r|..]
    ensures AllSpace(s[..|s| - |r|])
    ensures r == [] || !IsSpace(r[0])
  {
    if |s| > 0 && IsSpace(s[0]) then
      var r := TrimStart(s[1..]);
      assert s[..|s| - |r|] == [s[0]] + s[1..][..|s[1..]| - |r|];
      r
    else s
  }

  /** Trailing white space removed: the longest prefix of `s` that does not end with
      white space, and everything cut off is white space. */
  function TrimEnd(s: string): (r: string)
    ensures |r| <= |s| && r == s[..|r|]
    ensures AllSpace(s[|r|..])
    ensures r == [] || !IsSpace(r[|r| - 1])
  {
    if |s| > 0 && IsSpace(s[|s| - 1]) then
      var r := TrimEnd(s[..|s| - 1]);
      assert s[|r|..] == s[..|s| - 1][|r|..] + [s[|s| - 1]];
      r
    else s
  }

  /** `String.prototype.trim`. */
  function Trim(s: string): (r: string)
    ensures |r| <= |s|
    ensures r == [] <==> AllSpace(s)
    ensures r != [] ==> !IsSpace(r[0]) && !IsSpace(r[|r| - 1])
    ensures exists a, b :: 0 <= a <= b <= |s| && r == s[a..b] && AllSpace(s[..a]) && AllSpace(s[b..])
  {
    TrimIsSlice(s);
    SpaceTrimsToEmpty(s);
    EmptyTrimIsSpace(s);
    TrimmedEnds(s);
    TrimEnd(TrimStart(s))
  }

  /** Trimming keeps a slice of the text and removes only white space around it. */
  lemma TrimIsSlice(s: string)
    ensures exists a, b :: 0 <= a <= b <= |s| && TrimEnd(TrimStart(s)) == s[a..b] && AllSpace(s[..a]) && AllSpace(s[b..])
  {
    var t := TrimStart(s);
    var r := TrimEnd(t);
    assert |t| <= |s| && t == s[|s| - |t|..] && AllSpace(s[..|s| - |t|]);
    assert |r| <= |t| && r == t[..|r|] && AllSpace(t[|r|..]);
    SpaceOutsideSlice(s, t, r);
  }

  /** Cutting white space off the front and then off the back leaves a slice with white space on either side. */
  lemma SpaceOutsideSlice(s: string, t: string, r: string)
    requires |t| <= |s| && t == s[|s| - |t|..] && AllSpace(s[..|s| - |t|])
    requires |r| <= |t| && r == t[..|r|] && AllSpace(t[|r|..])
    ensures exists a, b :: 0 <= a <= b <= |s| && r == s[a..b] && AllSpace(s[..a]) && AllSpace(s[b..])
  {
    var a := |s| - |t|;
    var b := a + |r|;
    assert r == s[a..b];
    assert t[|r|..] == s[b..];
  }

  /** White space on both sides of a cut makes the whole text white space. */
  lemma AllSpaceJoin(s: string, n: nat)
    requires n <= |s| && AllSpace(s[..n]) && AllSpace(s[n..])
    ensures AllSpace(s)
  {
    forall i | 0 <= i < |s|
      ensures IsSpace(s[i])
    {
      if i < n {
        assert s[..n][i] == s[i];
      } else {
        assert s[n..][i - n] == s[i];
      }
    }
  }

  /** Trimming the front of an all-white-space text leaves nothing. */
  lemma {:induction false} TrimStartOfSpace(s: string)
    requires AllSpace(s)
    ensures TrimStart(s) == []
    decreases |s|
  {
    if s != [] {
      assert IsSpace(s[0]);
      forall i | 0 <= i < |s| - 1
        ensures IsSpace(s[1..][i])
      {
        assert s[1..][i] == s[i + 1];
      }
      TrimStartOfSpace(s[1..]);
    }
  }

  /** A text whose end-trim is empty is all white space. */
  lemma TrimEndEmpty(t: string)
    requires TrimEnd(t) == []
    ensures AllSpace(t)
  {
    assert t[|TrimEnd(t)|..] == t;
  }

  /** Trimming both ends of all-white-space text leaves nothing. */
  lemma SpaceTrimsToEmpty(s: string)
    ensures AllSpace(s) ==> TrimEnd(TrimStart(s)) == []
  {
    if AllSpace(s) {
      TrimStartOfSpace(s);
    }
  }

  /** Text that trims to nothing is all white space. */
  lemma EmptyTrimIsSpace(s: string)
    ensures TrimEnd(TrimStart(s)) == [] ==> AllSpace(s)
  {
    var t := TrimStart(s);
    if TrimEnd(t) == [] {
      var n := |s| - |t|;
      assert t == s[n..] && AllSpace(s[..n]);
      TrimEndEmpty(t);
      SpaceAroundCut(s, n, t);
    }
  }

  /** A text cut into a white-space head and a white-space tail is white space. */
  lemma SpaceAroundCut(s: string, n: nat, t: string)
    requires n <= |s| && t == s[n..]
    requires AllSpace(s[..n]) && AllSpace(t)
    ensures AllSpace(s)
  {
    assert s == s[..n] + t;
    SuffixSpace(s, n, t);
    AllSpaceJoin(s, n);
  }

  /** Text trimmed at both ends starts and ends with a non-space character. */
  lemma TrimmedEnds(s: string)
    ensures TrimEnd(TrimStart(s)) != [] ==>
      !IsSpace(TrimEnd(TrimStart(s))[0]) && !IsSpace(TrimEnd(TrimStart(s))[|TrimEnd(TrimStart(s))| - 1])
  {
    TrimEndKeepsHead(TrimStart(s));
  }

  lemma TrimEndKeepsHead(t: string)
    requires t == [] || !IsSpace(t[0])
    ensures TrimEnd(t) != [] ==> !IsSpace(TrimEnd(t)[0])
  {
    var r := TrimEnd(t);
    if r != [] {
      assert r[0] == t[0];
    }
  }

  lemma SuffixSpace(s: string, n: nat, t: string)
    requires n <= |s| && t == s[n..] && AllSpace(t)
    ensures AllSpace(s[n..])
  {
  }

  lemma TrimIsBothEnds(s: string)
    ensures Trim(s) == TrimEnd(TrimStart(s))
  {
  }

  /** `p` occurs in `s` starting at index `i`. */
  predicate OccursAt(s: string, p: string, i: int) {
    0 <= i && i + |p| <= |s| && s[i..i + |p|] == p
  }

  predicate Contains(s: string, p: string) {
    exists i :: 0 <= i <= |s| && OccursAt(s, p, i)
  }

  /** `i` is where `s.indexOf(p)` finds `p`: an occurrence with none before it. */
  predicate FirstOccurrence(s: string, p: string, i: int) {
    OccursAt(s, p, i) && forall j :: 0 <= j < i ==> !OccursAt(s, p, j)
  }

  /** `s.indexOf(p, from)`: the first occurrence of `p` at or after `from`. */
  function IndexOfFrom(s: string, p: string, from: nat): (r: Option<nat>)
    ensures r.Some? ==> from <= r.value && OccursAt(s, p, r.value)
    ensures r.Some? ==> forall j :: from <= j < r.value ==> !OccursAt(s, p, j)
    ensures r.None? ==> forall j :: from <= j ==> !OccursAt(s, p, j)
    decreases |s| - from
  {
    if from + |p| > |s| then None
    else if s[from..from + |p|] == p then Some(from)
    else IndexOfFrom(s, p, from + 1)
  }

  /** `s.indexOf(p)`, with "absent" as None. */
  function IndexOf(s: string, p: string): (r: Option<nat>)
    ensures r.Some? <==> Contains(s, p)
    ensures r.Some? ==> FirstOccurrence(s, p, r.value)
  {
    IndexOfFrom(s, p, 0)
  }

  /** `s.replace(p, rep)` with a string pattern: only the first occurrence is replaced,
      and `rep` is inserted literally. */
  function ReplaceFirst(s: string, p: string, rep: string): (r: string)
    ensures !Contains(s, p) ==> r == s
    ensures forall i :: FirstOccurrence(s, p, i) ==> r == s[..i] + rep + s[i + |p|..]
  {
    match IndexOf(s, p)
    case None => s
    case Some(i) =>
      assert forall k :: FirstOccurrence(s, p, k) ==> k == i;
      s[..i] + rep + s[i + |p|..]
  }

  /** An occurrence inside a prefix is an occurrence in the whole string. */
  lemma OccursInPrefix(s: string, p: string, n: nat, j: int)
    requires n <= |s| && OccursAt(s[..n], p, j)
    ensures OccursAt(s, p, j)
  {
    assert s[..n][j..j + |p|] == s[j..j + |p|];
  }

  /** An occurrence inside a suffix is an occurrence in the whole string, shifted. */
  lemma OccursInSuffix(s: string, p: string, n: nat, j: int)
    requires n <= |s| && OccursAt(s[n..], p, j)
    ensures OccursAt(s, p, n + j)
  {
    assert s[n..][j..j + |p|] == s[n + j..n + j + |p|];
  }

  /** `s.split(sep)` for a non-empty separator: the pieces between successive
      non-overlapping occurrences, scanning left to right. */
  function Split(s: string, sep: string): (r: seq<string>)
    requires |sep| > 0
    ensures |r| >= 1

    decreases |s|
  {
    match IndexOf(s, sep)
    case None => [s]
    case Some(i) => [s[..i]] + Split(s[i + |sep|..], sep)
  }

  /** No piece of a split contains the separator, and a text splits into one piece
      exactly when it does not contain the separator. */
  lemma {:induction false} SplitPieces(s: string, sep: string)
    requires |sep| > 0
    ensures forall k :: 0 <= k < |Split(s, sep)| ==> !Contains(Split(s, sep)[k], sep)
    ensures |Split(s, sep)| == 1 <==> !Contains(s, sep)
    decreases |s|
  {
    var found := IndexOf(s, sep);
    if found.Some? {
      var i := found.value;
      var head := s[..i];
      var rest := s[i + |sep|..];
      assert Split(s, sep) == [head] + Split(rest, sep);
      forall j | 0 <= j <= |head| && OccursAt(head, sep, j) ensures false {
        OccursInPrefix(s, sep, i, j);
      }
      SplitPieces(rest, sep);
    }
  }

  /** `parts.join(sep)`. */
  function Join(parts: seq<string>, sep: string): string {
    if |parts| == 0 then ""
    else if |parts| == 1 then parts[0]
    else parts[0] + sep + Join(parts[1..], sep)
  }

  lemma JoinCons(head: string, tail: seq<string>, sep: string)
    requires |tail| >= 1
    ensures Join([head] + tail, sep) == head + sep + Join(tail, sep)
  {
    assert ([head] + tail)[1..] == tail;
  }

  /** Splitting and joining again with the same separator gives back the text. */
  lemma {:induction false} SplitJoin(s: string, sep: string)
    requires |sep| > 0
    ensures Join(Split(s, sep), sep) == s
    decreases |s|
  {
    var found := IndexOf(s, sep);
    if found.Some? {
      var i := found.value;
      var rest := s[i + |sep|..];
      var tail := Split(rest, sep);
      assert Split(s, sep) == [s[..i]] + tail;
      SplitJoin(rest, sep);
      JoinCons(s[..i], tail, sep);
      assert s[i..i + |sep|] == sep;
      assert s == s[..i] + s[i..i + |sep|] + rest;
    }
  }

  /** Trimming the front of white space followed by text that starts with a
      non-space character leaves exactly that text. */
  lemma {:induction false} TrimStartSkips(ws: string, x: string)
    requires AllSpace(ws) && (x == [] || !IsSpace(x[0]))
    ensures TrimStart(ws + x) == x
    decreases |ws|
  {
    if |ws| > 0 {
      assert (ws + x)[1..] == ws[1..] + x;
      TrimStartSkips(ws[1..], x);
    } else {
      assert ws + x == x;
    }
  }

  /** The mirror image of TrimStartSkips for the end of a text. */
  lemma {:induction false} TrimEndSkips(x: string, ws: string)
    requires AllSpace(ws) && (x == [] || !IsSpace(x[|x| - 1]))
    ensures TrimEnd(x + ws) == x
    decreases |ws|
  {
    if |ws| > 0 {
      var s := x + ws;
      assert s[..|s| - 1] == x + ws[..|ws| - 1];
      TrimEndSkips(x, ws[..|ws| - 1]);
    } else {
      assert x + ws == x;
    }
  }
}
