/** The client's custom-tag post-processing of rendered markup: every
    `<think>…</think>` region (tags matched case-insensitively, the shortest
    region first, scanning left to right) becomes a collapsible block, or
    disappears when it holds only whitespace; and the click handler that
    opens and closes such a block. */
module ThinkTags {
  import opened Text

  const OpenTag: string := "<think>"
  const CloseTag: string := "</think>"

  const ExpandLabel: string := "[Thought - Click to Expand]"
  const HideLabel: string := "[Thought - Click to Hide]"

  /** The markup written before and after the captured text of a region. */
  const BlockHead: string :=
    "\n            <div class=\"custom-think-collapsible\">\n                <div class=\"think-summary\">"
    + ExpandLabel
    + "</div>\n                <div class=\"think-content\" style=\"display:none;\">"
  const BlockTail: string := "</div>\n            </div>"

  /** An opening tag, in any letter case, starts at `i` in `s`. */
  predicate OpensAt(s: string, i: int) {
    && 0 <= i && i + |OpenTag| <= |s|
    && s[i] == '<' && LowerAscii(s[i + 1]) == 't' && LowerAscii(s[i + 2]) == 'h'
    && LowerAscii(s[i + 3]) == 'i' && LowerAscii(s[i + 4]) == 'n' && LowerAscii(s[i + 5]) == 'k'
    && s[i + 6] == '>'
  }

  /** A closing tag, in any letter case, starts at `i` in `s`. */
  predicate ClosesAt(s: string, i: int) {
    && 0 <= i && i + |CloseTag| <= |s|
    && s[i] == '<' && s[i + 1] == '/' && LowerAscii(s[i + 2]) == 't' && LowerAscii(s[i + 3]) == 'h'
    && LowerAscii(s[i + 4]) == 'i' && LowerAscii(s[i + 5]) == 'n' && LowerAscii(s[i + 6]) == 'k'
    && s[i + 7] == '>'
  }

  predicate IsOpenTag(t: string) {
    |t| == |OpenTag| && OpensAt(t, 0)
  }

  predicate IsCloseTag(t: string) {
    |t| == |CloseTag| && ClosesAt(t, 0)
  }

  /** The patterns are the tags themselves. */
  lemma TagsMatchThemselves()
    ensures IsOpenTag(OpenTag) && IsCloseTag(CloseTag)
    ensures forall t :: IsOpenTag(t) <==> MatchesIgnoreCase(t, OpenTag)
    ensures forall t :: IsCloseTag(t) <==> MatchesIgnoreCase(t, CloseTag)
  {
  }

  ghost predicate NoOpen(s: string) {
    forall i :: !OpensAt(s, i)
  }

  ghost predicate NoClose(s: string) {
    forall i :: !ClosesAt(s, i)
  }

  lemma OpensAtTail(s: string, i: nat)
    requires s != []
    ensures OpensAt(s[1..], i) <==> OpensAt(s, i + 1)
  {
  }

  lemma ClosesAtTail(s: string, i: nat)
    requires s != []
    ensures ClosesAt(s[1..], i) <==> ClosesAt(s, i + 1)
  {
  }

  /** The start of the first closing tag in `s`, if any (the lazy `*?`). */
  function FindClose(s: string): (r: Option<nat>)
    ensures r.Some? ==> ClosesAt(s, r.value) && forall j :: 0 <= j < r.value ==> !ClosesAt(s, j)
    ensures r.None? ==> NoClose(s)
  {
    if |s| < |CloseTag| then None
    else if ClosesAt(s, 0) then Some(0)
    else
      match FindClose(s[1..])
      case Some(k) =>
        forall j | 0 < j <= k ensures !ClosesAt(s, j) { ClosesAtTail(s, j - 1); }
        ClosesAtTail(s, k);
        Some(k + 1)
      case None =>
        assert NoClose(s) by {
          forall j | 0 < j ensures !ClosesAt(s, j) { ClosesAtTail(s, j - 1); }
        }
        None
  }

  /** What a matched region with captured text `c` is replaced by (the
      callback of `transformCustomTags`). */
  function Replacement(c: string): string {
    if Trim(Js, c) == [] then [] else BlockHead + c + BlockTail
  }

  /** The global replace of the think pattern with a callback `f` applied to
      the captured text of each match. */
  function ReplaceRegions(s: string, f: string -> string): string
    decreases |s|
  {
    if s == [] then []
    else if OpensAt(s, 0) then
      match FindClose(s[|OpenTag|..])
      case Some(k) =>
        f(s[|OpenTag|..|OpenTag| + k]) + ReplaceRegions(s[|OpenTag| + k + |CloseTag|..], f)
      case None => [s[0]] + ReplaceRegions(s[1..], f)
    else [s[0]] + ReplaceRegions(s[1..], f)
  }

  /** `transformCustomTags`. */
  function TransformCustomTags(s: string): string {
    ReplaceRegions(s, Replacement)
  }

  /** One step of the scan when a region starts at the front. */
  lemma TransformAtMatch(s: string, k: nat, f: string -> string)
    requires OpensAt(s, 0) && FindClose(s[|OpenTag|..]) == Some(k)
    ensures ReplaceRegions(s, f)
         == f(s[|OpenTag|..|OpenTag| + k]) + ReplaceRegions(s[|OpenTag| + k + |CloseTag|..], f)
  {
  }

  /** One step of the scan when no region starts at the front. */
  lemma TransformAtOther(s: string, f: string -> string)
    requires s != [] && (!OpensAt(s, 0) || FindClose(s[|OpenTag|..]).None?)
    ensures ReplaceRegions(s, f) == [s[0]] + ReplaceRegions(s[1..], f)
  {
  }

  /** No closing tag starts after the end of an opening tag: the pattern
      has no match anywhere. */
  ghost predicate NoRegion(s: string) {
    forall i, j :: OpensAt(s, i) && i + |OpenTag| <= j ==> !ClosesAt(s, j)
  }

  lemma UntaggedHasNoRegion(s: string)
    requires NoOpen(s) || NoClose(s)
    ensures NoRegion(s)
  {
  }

  /** Markup in which the pattern has no match is left exactly as it is:
      an opening tag that is never closed after it is not a match. */
  lemma {:induction false} NoRegionUnchanged(s: string, f: string -> string)
    requires NoRegion(s)
    ensures ReplaceRegions(s, f) == s
    decreases |s|
  {
    if s != [] {
      if OpensAt(s, 0) {
        var t := s[|OpenTag|..];
        forall j: nat ensures !ClosesAt(t, j) {
          assert !ClosesAt(s, j + |OpenTag|);
        }
      }
      TransformAtOther(s, f);
      forall i, j | OpensAt(s[1..], i) && i + |OpenTag| <= j ensures !ClosesAt(s[1..], j) {
        OpensAtTail(s, i);
        ClosesAtTail(s, j);
      }
      NoRegionUnchanged(s[1..], f);
    }
  }

  /** A string without `<` holds no tag at all. */
  lemma NoLessThanNoTags(s: string)
    requires '<' !in s
    ensures NoOpen(s) && NoClose(s)
  {
    forall i: nat | i < |s| ensures !OpensAt(s, i) && !ClosesAt(s, i) {
      assert s[i] in s;
    }
  }

  /** In `c + close + rest` with no closing tag inside `c`, the first closing
      tag starts right after `c`: a closing tag cannot straddle the border
      because its only `<` is its first character. */
  /** A tag's only `<` is its first character. */
  lemma ClosesAtInner(s: string, j: int, k: int)
    requires ClosesAt(s, j) && 0 < k < |CloseTag|
    ensures s[j + k] != '<'
  {
    assert LowerAscii('<') == '<';
  }

  lemma OpensAtInner(s: string, i: int, k: int)
    requires OpensAt(s, i) && 0 < k < |OpenTag|
    ensures s[i + k] != '<'
  {
    assert LowerAscii('<') == '<';
  }

  lemma FirstCloseAfter(c: string, close: string, rest: string)
    requires IsCloseTag(close) && NoClose(c)
    ensures FindClose(c + close + rest) == Some(|c|)
  {
    var s := c + close + rest;
    assert ClosesAt(s, |c|);
    forall j: nat | j < |c| ensures !ClosesAt(s, j) {
      if j + |CloseTag| <= |c| {
        assert !ClosesAt(c, j);
      } else if ClosesAt(s, j) {
        assert s[|c|] == '<';
        ClosesAtInner(s, j, |c| - j);
      }
    }
  }

  /** An opening tag does not start inside `pre` and run into `open` when
      `pre` holds no opening tag of its own. */
  lemma NoOpenAcrossBorder(pre: string, open: string, rest: string, i: nat)
    requires IsOpenTag(open) && NoOpen(pre) && i < |pre|
    ensures !OpensAt(pre + open + rest, i)
  {
    var s := pre + open + rest;
    if i + |OpenTag| <= |pre| {
      assert !OpensAt(pre, i);
    } else if OpensAt(s, i) {
      assert s[|pre|] == '<';
      OpensAtInner(s, i, |pre| - i);
    }
  }

  /** A region at the very front is replaced and the scan resumes after
      its closing tag. */
  lemma RegionAtFront(open: string, c: string, close: string, post: string, f: string -> string)
    requires IsOpenTag(open) && IsCloseTag(close) && NoClose(c)
    ensures ReplaceRegions(open + c + close + post, f) == f(c) + ReplaceRegions(post, f)
  {
    var t := c + close + post;
    var s := open + t;
    assert s == open + c + close + post;
    assert s[|OpenTag|..] == t;
    FirstCloseAfter(c, close, post);
    TransformAtMatch(s, |c|, f);
    assert s[|OpenTag|..|OpenTag| + |c|] == c;
    assert s[|OpenTag| + |c| + |CloseTag|..] == post;
  }

  /** Text before the first opening tag is copied unchanged. */
  lemma {:induction false} KeepPrefix(pre: string, rest: string, f: string -> string)
    requires forall i: nat :: i < |pre| ==> !OpensAt(pre + rest, i)
    ensures ReplaceRegions(pre + rest, f) == pre + ReplaceRegions(rest, f)
  {
    if pre != [] {
      var s := pre + rest;
      assert !OpensAt(s, 0);
      TransformAtOther(s, f);
      assert s[1..] == pre[1..] + rest;
      forall i: nat | i < |pre[1..]| ensures !OpensAt(pre[1..] + rest, i) {
        OpensAtTail(s, i);
      }
      KeepPrefix(pre[1..], rest, f);
      calc {
        ReplaceRegions(pre + rest, f);
        [s[0]] + ReplaceRegions(s[1..], f);
        [pre[0]] + ReplaceRegions(pre[1..] + rest, f);
        [pre[0]] + (pre[1..] + ReplaceRegions(rest, f));
        { assert [pre[0]] + pre[1..] == pre; }
        pre + ReplaceRegions(rest, f);
      }
    } else {
      assert pre + rest == rest;
    }
  }

  /** The shape of one replacement: text before the first region is kept,
      the region (tags included) becomes `f` of its captured text, and the
      scan carries on after the closing tag. */
  lemma TransformRegion(pre: string, open: string, c: string, close: string, post: string, f: string -> string)
    requires IsOpenTag(open) && IsCloseTag(close)
    requires NoOpen(pre) && NoClose(c)
    ensures ReplaceRegions(pre + open + c + close + post, f) == pre + f(c) + ReplaceRegions(post, f)
  {
    var rest := open + c + close + post;
    assert pre + open + c + close + post == pre + rest;
    forall i: nat | i < |pre| ensures !OpensAt(pre + rest, i) {
      NoOpenAcrossBorder(pre, open, c + close + post, i);
      assert pre + open + (c + close + post) == pre + rest;
    }
    KeepPrefix(pre, rest, f);
    RegionAtFront(open, c, close, post, f);
  }

  /** Markup in which no closing tag follows an opening tag (in particular
      markup without one of the two tags) is left exactly as it is. */
  lemma UntaggedUnchanged(s: string)
    requires NoRegion(s)
    ensures TransformCustomTags(s) == s
  {
    NoRegionUnchanged(s, Replacement);
  }

  lemma BlankReplacement(c: string)
    requires AllSpace(Js, c)
    ensures Replacement(c) == []
  {
    TrimEmptyIff(Js, c);
  }

  lemma FilledReplacement(c: string)
    requires !AllSpace(Js, c)
    ensures Replacement(c) == BlockHead + c + BlockTail
  {
    TrimEmptyIff(Js, c);
  }

  /** A region holding only whitespace is dropped, tags included. */
  lemma BlankRegionDropped(pre: string, open: string, c: string, close: string, post: string)
    requires IsOpenTag(open) && IsCloseTag(close)
    requires NoOpen(pre) && NoClose(c) && AllSpace(Js, c)
    ensures TransformCustomTags(pre + open + c + close + post) == pre + TransformCustomTags(post)
  {
    TransformRegion(pre, open, c, close, post, Replacement);
    BlankReplacement(c);
  }

  /** A region with visible content becomes one collapsible block whose
      hidden pane holds the captured text verbatim; the text before it is
      kept and the rest is transformed in turn. */
  lemma FilledRegionCollapsed(pre: string, open: string, c: string, close: string, post: string)
    requires IsOpenTag(open) && IsCloseTag(close)
    requires NoOpen(pre) && NoClose(c) && !AllSpace(Js, c)
    ensures TransformCustomTags(pre + open + c + close + post)
         == pre + (BlockHead + c + BlockTail) + TransformCustomTags(post)
  {
    TransformRegion(pre, open, c, close, post, Replacement);
    FilledReplacement(c);
  }

  /** `"pre<think>  </think>post"` becomes `"prepost"`. */
  lemma ExampleBlankDropped(s: string)
    requires s == "pre" + OpenTag + "  " + CloseTag + "post"
    ensures TransformCustomTags(s) == "prepost"
  {
    var pre, c, post := "pre", "  ", "post";
    NoLessThanNoTags(pre);
    NoLessThanNoTags(c);
    NoLessThanNoTags(post);
    BlankRegionDropped(pre, OpenTag, c, CloseTag, post);
    UntaggedHasNoRegion(post);
    UntaggedUnchanged(post);
  }

  /** `"<THINK>reasoning</Think>"` becomes exactly one collapsible block
      whose hidden pane holds `"reasoning"`. */
  lemma ExampleReasoningCollapsed(s: string)
    requires s == "<THINK>" + "reasoning" + "</Think>"
    ensures TransformCustomTags(s) == BlockHead + "reasoning" + BlockTail
  {
    var c := "reasoning";
    NoLessThanNoTags([]);
    NoLessThanNoTags(c);
    assert s == [] + "<THINK>" + c + "</Think>" + [];
    assert !IsSpace(Js, c[0]);
    FilledRegionCollapsed([], "<THINK>", c, "</Think>", []);
    UntaggedHasNoRegion([]);
    UntaggedUnchanged([]);
  }

  /** A stray closing tag before an unclosed opening tag is no match:
      `"</think>x<think>y"` is left as it is. */
  lemma ExampleStrayCloseUnchanged(s: string)
    requires s == CloseTag + "x" + OpenTag + "y"
    ensures TransformCustomTags(s) == s
  {
    assert s == ['<', '/', 't', 'h', 'i', 'n', 'k', '>', 'x', '<', 't', 'h', 'i', 'n', 'k', '>', 'y'];
    UntaggedUnchanged(s);
  }

  /** The state the click handler reads and writes: the summary's label and
      the `display` style of its next sibling, if it has one. */
  datatype Summary = Summary(caption: string, pane: Option<string>)

  /** A block as `transformCustomTags` creates it: collapsed. */
  const Collapsed: Summary := Summary(ExpandLabel, Some("none"))

  /** The click handler on a `think-summary` element. */
  function ToggleThink(s: Summary): (r: Summary)
    ensures s.pane.None? ==> r == s
    ensures s.pane == Some("block") ==> r == Summary(ExpandLabel, Some("none"))
    ensures s.pane.Some? && s.pane != Some("block") ==> r == Summary(HideLabel, Some("block"))
    ensures s.pane.Some? ==> r.pane.Some? && (r.pane.value == "block" <==> s.pane.value != "block")
    ensures r.pane.Some? ==> (r.caption == HideLabel <==> r.pane.value == "block")
  {
    match s.pane
    case None => s
    case Some(display) =>
      if display == "block" then Summary(ExpandLabel, Some("none"))
      else Summary(HideLabel, Some("block"))
  }

  /** Clicking a freshly rendered block opens it; clicking again closes it. */
  lemma ToggleTwiceRestores()
    ensures ToggleThink(Collapsed) == Summary(HideLabel, Some("block"))
    ensures ToggleThink(ToggleThink(Collapsed)) == Collapsed
  {
  }
}
